# SimpleTimeClock core, modelled in Dafny

SimpleTimeClock is a one-window clock-in/clock-out timer. Pressing the toggle
button clocks in or out; while clocked in, a `Timer` adds one minute per minute
to the App's `current_time` counter and shows it on a label as `DD:HH:MM`.
This project models that core of `main.py` and proves its properties:

- `minutes_format.dfy`, module `MinutesFormat`: `formatMinutesString` as a
  pure function returning `Ok(text)` or `Err(InvalidArgument)` (the
  `ValueError`), with the `divmod` fields, Python's `str` of a non-negative
  integer, the `{:02d}` padding, and an inverse `ParseClock` that reads a
  `DD:HH:MM` text back into minutes.
- `clock_spec.dfy`, module `ClockSpec`: the App's observable state as a value
  (`Clock`) and the effect of each event on it: a press of the toggle button,
  or the event loop firing a callback that a timer scheduled with
  `root.after`. The lemmas state what holds after every event and along every
  run of events.
- `time_clock.dfy`, module `TimeClock`: the classes `Timer` and `App` with the
  fields the program updates in place. `App.ToggleClockState`, `App.ClockIn`,
  `App.ClockOut`, `App.Tick`, `App.TickRunning` and `App.TickStopped` are
  proved to move the App's abstract state exactly as `ClockSpec.Step` does, and
  to keep the App's invariant. The `Timer` methods are specified only on the
  timer's own fields and on its App's counter and label; called on their own,
  outside those App methods, they need not keep the App's invariant.

Scheduling is made explicit. `Timer.pending` counts the `updateTime` callbacks
of a timer that the event loop holds and has not yet fired. `App.Tick(i)` is
the event loop firing one of them for the `i`-th timer ever created.
`App.timers` keeps every timer, because a stopped timer may still have a
callback pending; its last element is the App's `self.timer`.

`run` (main.py:51-53) has no guard against a second call. Each clock-in
creates a fresh `Timer` and runs it once, and `ClockSpec.Inv` shows that no
timer holds more than one pending callback.

The timer writes the App's `current_time` and label directly through
`app_class` (main.py:64-66). `Timer.UpdateTime` does the same.

## Model

| member | source | states |
|---|---|---|
| `MinutesFormat.FormatMinutesString` | main.py:20-29 | an error exactly for a negative count; otherwise text of the shape `\d{2,}:\d{2}:\d{2}` that reads back as the same count |
| `MinutesFormat.Fields` | main.py:25-26 | days*1440 + hours*60 + minutes equals the count, with hours below 24 and minutes below 60 |
| `MinutesFormat.FieldsUnique` | main.py:25-26 | any decomposition with hours below 24 and minutes below 60 is the one `divmod` computes |
| `MinutesFormat.DecimalDigitsShape` | main.py:29 | `str(n)` is one or more decimal digits, one exactly below 10, at most two below 100, no leading zero unless n is 0 |
| `MinutesFormat.ParseDecimalDigits` | main.py:29 | `str(n)` reads back as n |
| `MinutesFormat.ParseLeadingZero` | main.py:29 | a padding zero does not change the value of a digit string |
| `MinutesFormat.PadTwoSpec` | main.py:29 | `{:02d}` gives at least two digits that read back as n, exactly two below 100, and no padding zero beyond width two |
| `MinutesFormat.FormatLayout` | main.py:29 | the text is the padded days, `:`, the padded hours, `:`, the padded minutes, hours and minutes two digits wide |
| `MinutesFormat.FormatRoundTrip` | main.py:25-29 | the text has the `DD:HH:MM` shape and parses back to the count it came from |
| `MinutesFormat.FormatInjective` | main.py:20-29 | two different counts never show the same text |
| `MinutesFormat.FormatZero` | main.py:91 | formatting 0 gives `00:00:00`, the label's initial text |
| `MinutesFormat.FormatExamples` | main.py:20-29 | 90 gives `00:01:30`, 1440 gives `01:00:00`, 1500 gives `01:01:00`, and -1 is refused |
| `ClockSpec.InitialInv` | main.py:74-106 | the freshly built App (clocked out, counter 0, button `Clock In`, label `00:00:00`, no timer) satisfies the invariant |
| `ClockSpec.StepInv` | main.py:114-133 | every event keeps the invariant: button text matches the session, label shows the counter, clocked in exactly when the current timer runs, earlier timers stopped, at most one pending callback per timer |
| `ClockSpec.ToggleInv` | main.py:114-133 | a toggle keeps the invariant |
| `ClockSpec.TickInv` | main.py:60-67 | a fired callback keeps the invariant |
| `ClockSpec.RunningTickInv` | main.py:62-67 | a callback of a running timer keeps the invariant, the label showing the new count |
| `ClockSpec.StoppedTickInv` | main.py:62 | a callback of a stopped timer keeps the invariant |
| `ClockSpec.ToggleEffect` | main.py:114-133 | a toggle flips `clocked_in`; the button reads `Clock Out` exactly when clocked in and `Clock In` exactly when clocked out; counter and label are unchanged; clocked in exactly when the current timer runs |
| `ClockSpec.StoppedTickChangesNothing` | main.py:60-67 | a callback of a stopped timer leaves counter, label, session, button and every running flag unchanged, and schedules nothing further |
| `ClockSpec.OnlyCurrentTimerAdvances` | main.py:60-67 | if a callback changes the counter, it was the current timer's while clocked in, and it added exactly 1 and showed the new count |
| `ClockSpec.StepCounter` | main.py:64 | an event leaves the counter unchanged or adds 1, and only a callback adds |
| `ClockSpec.RunInv` | main.py:60-133 | any run of toggles and callbacks from a valid state keeps the invariant |
| `ClockSpec.RunCounterBounds` | main.py:64 | along any run the counter never decreases and grows by at most the number of callbacks fired |
| `ClockSpec.ClockedInTicks` | main.py:60-67 | while clocked in, n callbacks of the current timer add exactly n to the counter and show the result |
| `ClockSpec.ClockedOutFrozen` | main.py:116-122 | while clocked out, no callback of any timer changes the counter or the label |
| `ClockSpec.ToggleOutAndInKeepsCounter` | main.py:114-133 | clocking out, any callbacks, and clocking in again keep the counter and label |
| `TimeClock.Timer.constructor` | main.py:40-48 | a new timer belongs to its App, is not running and has nothing scheduled |
| `TimeClock.Timer.Run` | main.py:51-53 | `run` sets the running flag and schedules one callback |
| `TimeClock.Timer.Stop` | main.py:56-57 | `stop` clears the running flag and changes nothing else |
| `TimeClock.Timer.Fire` | main.py:53 | the event loop consumes one scheduled callback and runs `updateTime`: a running timer adds 1 to the counter, shows it, and schedules its next callback, so its count of pending callbacks is unchanged; a stopped timer changes nothing and its chain ends |
| `TimeClock.Timer.UpdateTime` | main.py:60-67 | on a running timer, adds 1 to the App's counter, sets the label to the formatted new count and schedules one more callback; on a stopped timer changes nothing |
| `TimeClock.App.constructor` | main.py:74-112 | the App starts valid, in the abstract initial state |
| `TimeClock.App.ToggleClockState` | main.py:114-133 | moves the App as a toggle does, keeps it valid, returns 0; clocking in appends a fresh timer and keeps the old ones |
| `TimeClock.App.ClockOut` | main.py:116-122 | clears `clocked_in`, sets the button to `Clock In`, stops the current timer, keeps the list of timers, and moves the App as a toggle does |
| `TimeClock.App.ClockIn` | main.py:123-131 | sets `clocked_in`, sets the button to `Clock Out`, appends a fresh running timer with one scheduled callback, keeps the earlier timers, and moves the App as a toggle does |
| `TimeClock.App.Tick` | main.py:60-67 | firing a pending callback of timer i moves the App as that callback does and keeps it valid |
| `TimeClock.App.TickRunning` | main.py:62-67 | a callback of a running timer adds 1 to the counter and shows the new count, leaving the timers as they were |
| `TimeClock.App.TickStopped` | main.py:62 | a callback of a stopped timer is consumed and changes nothing else |

## Left out

- Window title, geometry, fonts, colours and widget placement (main.py:77-112) are presentation only. The label and the button are modelled only by their texts.
- `chooseIcon` (main.py:137-153) is left out. It detects the operating system and loads an icon file through tkinter, all foreign calls.
- Threads and the 60-second delay are left out. `Thread.start` is modelled as a direct call to `run`. Each `root.after(60000, …)` is modelled as one pending callback, fired by an explicit `App.Tick`. Wall-clock time and drift are not modelled. In the program, `toggleClockState` returns with `clocked_in` already true before the new thread has run `run` (main.py:125-131, main.py:51-53); a clock-out in that window would have its `stop()` undone by `run`'s `_is_running = True` and `root.after`, and that timer would keep ticking while clocked out. The synchronous reading rules this interleaving out, and `ClockSpec.Inv` holds only under it.
- The Timer's `root` attribute (main.py:130) is left out. It only reaches the event loop, which `Tick` stands for.
- The module-level `current_time` and the `__main__` block (main.py:15, main.py:156-161) are left out. The App constructor starts the counter at 0, as line 159 does.
- `TimeClock.App.Tick` requires that timer `i` has a pending callback. The event loop only fires callbacks that were scheduled. `ClockSpec.Step` treats a tick with nothing pending as doing nothing.
- The Timer's own `label` reference and the `label=None, app_class=None` defaults (main.py:40, main.py:46) are folded into a required `app` argument. The only call site (main.py:129) passes the App's `total_time_label` and the App itself, so the model writes the App's label text through `app`.
