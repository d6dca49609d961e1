# Work-order timer widget (mrp) in Dafny

This project models the timer field widget of the manufacturing (mrp) module
(`addons/mrp/static/src/widgets/timer.js`). It has two parts.

- **`formatMinutes`** (`minutes_format.dfy`, module `MinutesFormat`). This is the formatter
  that shows a duration in minutes as `[-]MM:SS`. The "no value" sentinel `false` is shown
  as the empty string. The formatter's steps are written out as the widget performs them:
  sign, absolute value, `Math.floor`, `% 1`, `* 60`, `padStart(2, "0")`, and the template
  literal. Two independent definitions sit beside it:
  - `ClockOf` splits the whole seconds in `|v|` minutes into minutes and seconds.
  - `ParseClock` reads the text back.

  The lemmas prove that the text reads back as exactly that clock. Two durations show the
  same text if and only if they have the same sign, whole minutes and whole seconds. The
  lemmas also prove the layout: an optional sign, two or more minute digits (never cut),
  one `:`, and exactly two second digits.
- **`MrpTimer`** (`mrp_timer.dfy`, module `MrpTimerWidget`). This is the widget's state
  machine. Its state is the props, the duration (in minutes), the `ongoing` flag, and the
  wall-clock time of the last drift check (`lastDateTime`). It also counts how many
  callbacks of each `setTimeout` loop are still pending:
  - `tickCallbacks` for the per-second loop;
  - `driftCallbacks` for the ten-second drift loop.

  Each lifecycle callback is a rule on the value type `TimerState`: `Setup`, `StartUp`,
  `UpdateProps`, `Tick`, `DriftTick` and `SnapToProps`. The class `MrpTimer` performs
  these rules in place, and each method's contract ties its new state to the rule. The
  current time (`Date.now()`) and the server's `get_working_duration` answer are method
  parameters. A callback that fires is an explicit method call.
- **Runs** (`timer_runs.dfy`, module `MrpTimerRuns`). A run is a sequence of events: a
  pending callback fires, new props arrive, or the widget renders. The lemmas state what
  runs do over time:
  - while ongoing, `n` ticks add exactly `n` seconds;
  - while stopped, ticks only end the pending per-second callbacks;
  - a drift check corrects the duration if and only if it comes more than 11 s after the
    last drift check (before the first one, after setup), and then by exactly the lateness;
  - the drift loop never stops itself;
  - a widget that starts stopped on a clean record stays frozen until new props arrive;
  - a dirty record's value wins at render time;
  - stopping and restarting within one second leaves two per-second callbacks pending,
    and both of them count.

`wrappers.dfy` holds the `Option` type. In this model `None` stands for a prop that was not
supplied (`undefined`).

On a props update with a false-to-true edge, the widget does not call
`get_working_duration`. It resets the duration to the new `value` and restarts both loops
(`timer.js:63-67`).

## Model

| member | source | states |
|---|---|---|
| `MinutesFormat.FormatMinutes` | addons/mrp/static/src/widgets/timer.js:11-24 | the text is empty exactly when the value is the `false` sentinel |
| `MinutesFormat.Fields` | addons/mrp/static/src/widgets/timer.js:15-20 | the sign flag is set exactly for negative inputs; the seconds computed from `% 1` and `* 60` are below 60 |
| `MinutesFormat.FractionalPart` | addons/mrp/static/src/widgets/timer.js:20 | `a % 1` for a non-negative `a` lies in [0, 1) and adds to `floor(a)` to give `a` |
| `MinutesFormat.NatToDecimal` | addons/mrp/static/src/widgets/timer.js:21-22 | `${n}` is a non-empty run of decimal digits, with a leading `0` only for zero |
| `MinutesFormat.PadStart` | addons/mrp/static/src/widgets/timer.js:21-22 | `padStart` lengthens to the width and never shortens a longer string |
| `MinutesFormat.PadStartContents` | addons/mrp/static/src/widgets/timer.js:21-22 | `padStart` keeps the string whole at the end and puts only fill characters in front of it |
| `MinutesFormat.Field` | addons/mrp/static/src/widgets/timer.js:21-22 | a padded field is at least two digits, and exactly two for numbers below 100 |
| `MinutesFormat.FieldReadsBack` | addons/mrp/static/src/widgets/timer.js:21-22 | the zero padding does not change the number the field reads as |
| `MinutesFormat.Text` | addons/mrp/static/src/widgets/timer.js:23 | the template literal is at least five characters long |
| `MinutesFormat.FieldsAreWholeMinutesAndSeconds` | addons/mrp/static/src/widgets/timer.js:19-20 | the floor and `% 1` construction gives the whole minutes of the magnitude and the remaining whole seconds (0..59) |
| `MinutesFormat.FormatShowsClock` | addons/mrp/static/src/widgets/timer.js:11-24 | the formatter shows exactly the reference clock (sign, whole minutes, whole seconds) of the duration |
| `MinutesFormat.TextRoundTrip` | addons/mrp/static/src/widgets/timer.js:21-23 | the text of any clock with seconds below 60 reads back as that clock |
| `MinutesFormat.FormatRoundTrip` | addons/mrp/static/src/widgets/timer.js:11-24 | reading the formatted text back gives the duration's sign, whole minutes and whole seconds |
| `MinutesFormat.SameTextIffSameClock` | addons/mrp/static/src/widgets/timer.js:11-24 | two durations show the same text if and only if they have the same sign, whole minutes and whole seconds |
| `MinutesFormat.TextSign` | addons/mrp/static/src/widgets/timer.js:23 | the text starts with `-` exactly for a negative clock, followed by the text of its magnitude |
| `MinutesFormat.SignPrefix` | addons/mrp/static/src/widgets/timer.js:15-18 | a negative value is shown as `-` followed by the text of its absolute value; no other text starts with `-` |
| `MinutesFormat.TextLayout` | addons/mrp/static/src/widgets/timer.js:21-23 | a clock's text has one `:`; between the sign and it stands the whole padded minutes field, and after it the two-character seconds field |
| `MinutesFormat.Layout` | addons/mrp/static/src/widgets/timer.js:19-23 | the formatter's text has an optional sign, one `:`, a minutes field that is the whole padded `Math.floor(|v|)` (never cut to two characters) and a seconds field of exactly two |
| `MinutesFormat.WholeSecondsShown` | addons/mrp/static/src/widgets/timer.js:19-20 | `n` whole seconds, given in minutes, show as `n / 60` minutes and `n % 60` seconds |
| `MinutesFormat.FormatExamples` | addons/mrp/static/src/widgets/timer.js:11-24 | `false` gives `""`; 0, 1.5, -1.5 and 75 give `00:00`, `01:30`, `-01:30` and `75:00` |
| `MrpTimerWidget.Setup` | addons/mrp/static/src/widgets/timer.js:27-45 | the rule for `setup`: the duration is the `value` prop if supplied, else the record's duration; `ongoing` is the `ongoing` prop if supplied, else `is_user_working`; the drift clock starts at now; no loop is pending (see `StartedIdleStaysIdle`) |
| `MrpTimerWidget.StartUp` | addons/mrp/static/src/widgets/timer.js:46-55 | the rule for `onWillStart`: the server's duration is added only when the `ongoing` prop is absent, the model is not a sample and the record is in progress; one callback of each loop is scheduled only if `ongoing`; nothing else changes (see `StartedIdleStaysIdle`) |
| `MrpTimerWidget.UpdateProps` | addons/mrp/static/src/widgets/timer.js:56-68 | the rule for `onWillUpdateProps`: the props and `ongoing` always follow the new props; only a false-to-true edge resets the duration to the new value and schedules one callback of each loop; a stop or a repeat touches neither the duration nor the pending callbacks (see `OnlyPropsChangeOngoing`, `QuickRestartTicksTwice`, `RestartAddsIdleTime`) |
| `MrpTimerWidget.Tick` | addons/mrp/static/src/widgets/timer.js:80-85 | the rule for a per-second callback: while ongoing it adds exactly 1/60 minute and reschedules; otherwise its chain ends and the duration stays; nothing else changes (see `RunningTimerCountsSeconds`, `StoppedTimerDrainsTicks`) |
| `MrpTimerWidget.DriftTick` | addons/mrp/static/src/widgets/timer.js:90-97 | the rule for a drift callback: the duration never decreases, the drift clock becomes now, the loop reschedules, and nothing else changes (see `DriftCorrectsOnlyLateness`, `DriftLoopNeverStops`, `PunctualDriftChecksChangeNothing`) |
| `MrpTimerWidget.SnapToProps` | addons/mrp/static/src/widgets/timer.js:72-75 | the side effect of `durationFormatted`: only the duration can change, and only to the `value` prop (see `DirtyValueWins`) |
| `MrpTimerWidget.DurationText` | addons/mrp/static/src/widgets/timer.js:72-77 | the text `durationFormatted` returns reads back as the sign, whole minutes and whole seconds of the duration after the snap (see `DisplayAfterSeconds`) |
| `MrpTimerWidget.MrpTimer.constructor` | addons/mrp/static/src/widgets/timer.js:27-45 | the duration is the `value` prop if supplied, else the record's duration; `ongoing` is the `ongoing` prop if supplied, else the record's `is_user_working`; `lastDateTime` is now; no loop is pending |
| `MrpTimerWidget.MrpTimer.RunTimer` | addons/mrp/static/src/widgets/timer.js:79-86 | schedules one more per-second callback and changes nothing else |
| `MrpTimerWidget.MrpTimer.RunSleepTimer` | addons/mrp/static/src/widgets/timer.js:89-98 | schedules one more drift callback and changes nothing else |
| `MrpTimerWidget.MrpTimer.WillStart` | addons/mrp/static/src/widgets/timer.js:46-55 | adds the server's duration only when the `ongoing` prop is absent, the model is not a sample and the record is in progress; starts both loops only if `ongoing` |
| `MrpTimerWidget.MrpTimer.WillUpdateProps` | addons/mrp/static/src/widgets/timer.js:56-68 | `ongoing` always becomes the new flag; only on a false-to-true edge is the duration reset to the new value and both loops restarted |
| `MrpTimerWidget.MrpTimer.DurationFormatted` | addons/mrp/static/src/widgets/timer.js:72-77 | a dirty record's differing value replaces the duration, and the text is the formatting of the resulting duration |
| `MrpTimerWidget.MrpTimer.TickFired` | addons/mrp/static/src/widgets/timer.js:80-85 | while ongoing, adds exactly 1/60 minute and reschedules; otherwise the chain ends and nothing else changes; `ongoing` and `lastDateTime` are untouched |
| `MrpTimerWidget.MrpTimer.DriftFired` | addons/mrp/static/src/widgets/timer.js:90-97 | adds `lateness / 60000` minutes only if the lateness beyond 10000 ms exceeds 1000 ms; always sets `lastDateTime` to now and reschedules |
| `MrpTimerRuns.RunningTimerCountsSeconds` | addons/mrp/static/src/widgets/timer.js:80-85 | while ongoing, `n` ticks add exactly `n / 60` minutes and leave all else, the pending loop included, unchanged |
| `MrpTimerRuns.StoppedTimerDrainsTicks` | addons/mrp/static/src/widgets/timer.js:80-85 | while stopped, ticks leave the duration alone and each ends one pending per-second callback |
| `MrpTimerRuns.OnlyPropsChangeOngoing` | addons/mrp/static/src/widgets/timer.js:56-62 | no event but new props changes `ongoing` or the props |
| `MrpTimerRuns.DriftLoopNeverStops` | addons/mrp/static/src/widgets/timer.js:89-97 | no event lowers the number of pending drift callbacks, whatever `ongoing` is |
| `MrpTimerRuns.DriftCorrectsOnlyLateness` | addons/mrp/static/src/widgets/timer.js:91-94 | a drift check changes the duration if and only if it comes more than 11 s after the last drift check (before the first one, after setup), then by exactly the lateness beyond 10 s, in minutes, and never lowers it |
| `MrpTimerRuns.PunctualDriftChecksChangeNothing` | addons/mrp/static/src/widgets/timer.js:90-97 | drift checks at most 11 s apart leave the duration unchanged and record the last check's time |
| `MrpTimerRuns.IdleTimerIsFrozen` | addons/mrp/static/src/widgets/timer.js:73-97 | with no loop pending and a clean record, ticks, drift checks and renders change nothing |
| `MrpTimerRuns.StartedIdleStaysIdle` | addons/mrp/static/src/widgets/timer.js:27-54 | a widget set up stopped, on a clean record, keeps its start-up duration until new props arrive |
| `MrpTimerRuns.QuickRestartTicksTwice` | addons/mrp/static/src/widgets/timer.js:56-68 | stopping and restarting before the pending tick fires leaves two per-second callbacks, which add two seconds per round |
| `MrpTimerRuns.DirtyValueWins` | addons/mrp/static/src/widgets/timer.js:72-77 | rendering a dirty record shows its value; a clean record keeps the duration; rendering is idempotent |
| `MrpTimerRuns.RestartAddsIdleTime` | addons/mrp/static/src/widgets/timer.js:34-67 | as written: a widget set up stopped at `t0` and started by props later, whose first drift check is punctual 10 s after the restart at `t1`, gains the whole stopped period `(t1 - t0) / 60000` minutes on top of the new value |
| `MrpTimerRuns.RestartedDriftCountsFromRestart` | addons/mrp/static/src/widgets/timer.js:63-67 | with the drift clock reset on a restart (`RestartProps`), nothing else changes; the first drift check leaves the new duration alone when it comes within 11 s of the restart and otherwise adds only the lateness measured from the restart |
| `MrpTimerRuns.DisplayAfterSeconds` | addons/mrp/static/src/widgets/timer.js:76-85 | started from zero on a clean record, after `n` ticks the text reads `n / 60` minutes and `n % 60` seconds |

## Left out

- Scheduling. The model leaves out `setTimeout` delays, timing and jitter. A callback that fires is an explicit call (an event in a run), and the model only counts how many callbacks of each loop are pending.
- Teardown. `onWillDestroy` and its `clearTimeout` of the single stored handle `this.timer` are not modelled. That handle is the most recently scheduled timer of either loop. Cancellation is a scheduler concern.
- The `get_working_duration` remote call. Its answer is the `additionalDuration` parameter of `WillStart`. A failure of the call is not modelled.
- `Date.now()`. The current time is the `now` parameter. The drift callback reads the clock twice (lines 91 and 95). The model reads it once, for both uses.
- Framework code. `useService`, `useState` reactivity, `useInputField` with `parseFloatTime`, the template, the props declaration and the registry entries are framework code outside this model.
- Record presence. The bound record is a standard field prop, so it is always present. The `this.props.record &&` test and `"record" in nextProps` are therefore taken as true. An `ongoing` key that is present but holds `undefined` is treated like an absent key.
- Floating point. Numbers are exact reals, so the model has no IEEE-754 effects: no rounding drift in `+= 1 / 60`, no `-0`, no NaN, no exponential notation for huge numbers. `formatMinutes` called on `undefined` or another non-numeric value is not modelled. The widget's own duration is always a number here.
- MrpTimerWidget.MrpTimer.WillUpdateProps: when the new props on a false-to-true edge carry no `value`, the source assigns `undefined` to the duration (later shown as `NaN:NaN`). The model keeps the old duration.
- MrpTimerWidget.UpdateProps: when the new props on a false-to-true edge carry no `value`, the source assigns `undefined` to the duration (`timer.js:64`). The rule keeps the old duration, because the model's duration is always a number.
- MrpTimerWidget.SnapToProps: when the record is dirty and there is no `value` prop, the source assigns `undefined` to the duration (`timer.js:74`). The rule keeps the duration, for the same reason.
- MrpTimerWidget.DurationText: for a dirty record with no `value` prop, the source formats `undefined` and shows `NaN:NaN`. The model formats the old duration, for the same reason.
- MrpTimerWidget.MrpTimer.DurationFormatted: when the record is dirty and there is no `value` prop, the source assigns `undefined` to the duration. The model keeps the old duration.

## Findings

| source | as written | input that shows it | evidently intended | confidence | as-written member | corrected member |
|---|---|---|---|---|---|---|
| addons/mrp/static/src/widgets/timer.js:63-67 | a restart by new props starts the drift loop but keeps `lastDateTime` from setup (line 34), so the first drift check counts the whole stopped period as drift | set up stopped at 0 ms; props start it at 60000 ms with `value` 0; the drift callback fires on time at 70000 ms and adds 1 minute of idle time on top of the 10 s the ticks count | a restart also sets `lastDateTime = Date.now()`, so the first drift check measures from the restart | likely; not executed | `MrpTimerRuns.RestartAddsIdleTime` | `MrpTimerRuns.RestartedDriftCountsFromRestart` (rule `MrpTimerWidget.RestartProps`) |

The class `MrpTimer` and the runs keep the behaviour as written, so the model stays faithful
to the widget. `RestartProps` is the corrected rule for a props update, and the lemma next to
it proves the intended property.
