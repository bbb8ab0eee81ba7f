/** The time clock's objects as the program updates them in place: a `Timer`
    owns its running flag, and its `updateTime` callback bumps the counter and
    rewrites the label held by the `App`; the `App` owns the clocked-in flag,
    the counter, the two texts on screen and the current timer. The App's
    methods are proved to move its abstract state exactly as `ClockSpec.Step`
    does; the Timer's methods are specified on the timer's own fields and on
    its App's counter and label.
 */
module TimeClock {
  import opened MinutesFormat
  import opened ClockSpec

  class Timer {
    /** `_is_running` */
    var running: bool
    /** How many `root.after(60000, self.updateTime)` callbacks of this timer
        the event loop holds and has not fired yet. */
    var pending: nat
    /** `app_class`; the timer's `label` is this App's total-time label. */
    const app: App
    /** Which clock-in created this timer (0 for the first): its position in
        the App's list of timers. */
    ghost const serial: nat

    /** `Timer(label, app_class)`: a new timer is not running and has nothing
        scheduled. */
    constructor (app: App, ghost serial: nat)
      ensures this.app == app && this.serial == serial && !running && pending == 0
    {
      this.app := app;
      this.serial := serial;
      running := false;
      pending := 0;
    }

    function State(): TimerState
      reads this
    {
      TimerState(running, pending)
    }

    /** `run`: mark the timer running and schedule its first callback. */
    method Run()
      modifies this
      ensures running && pending == old(pending) + 1
    {
      running := true;
      pending := pending + 1;
    }

    /** `stop`: mark the timer stopped; a callback already scheduled stays
        scheduled and will find the flag cleared. */
    method Stop()
      modifies this`running
      ensures !running
    {
      running := false;
    }

    /** The event loop takes one of this timer's scheduled callbacks off its
        queue and runs it. */
    method Fire()
      requires pending > 0
      modifies this`pending, app`currentTime, app`labelText
      ensures old(running) ==>
        app.currentTime == old(app.currentTime) + 1
        && app.labelText == FormatMinutes(app.currentTime)
        && pending == old(pending)
      ensures !old(running) ==>
        app.currentTime == old(app.currentTime) && app.labelText == old(app.labelText)
        && pending == old(pending) - 1
    {
      pending := pending - 1;
      UpdateTime();
    }

    /** `updateTime`: while running, add one minute to the App's counter, show
        it on the label and schedule the next callback; otherwise do nothing,
        which ends the chain. */
    method UpdateTime()
      modifies this`pending, app`currentTime, app`labelText
      ensures old(running) ==>
        app.currentTime == old(app.currentTime) + 1
        && app.labelText == FormatMinutes(app.currentTime)
        && pending == old(pending) + 1
      ensures !old(running) ==>
        app.currentTime == old(app.currentTime) && app.labelText == old(app.labelText)
        && pending == old(pending)
    {
      if running {
        app.currentTime := app.currentTime + 1;
        var text := FormatMinutesString(app.currentTime);
        app.labelText := text.value;
        pending := pending + 1;
      }
    }
  }

  class App {
    /** `clocked_in` */
    var clockedIn: bool
    /** `current_time`, in minutes */
    var currentTime: nat
    /** the text of `toggle_button` */
    var buttonText: string
    /** the text of `total_time_label` */
    var labelText: string
    /** every Timer `toggleClockState` has created, oldest first; the last one
        is `self.timer` */
    var timers: seq<Timer>
    /** the state of each of `timers`, kept up to date by every method */
    ghost var states: seq<TimerState>

    ghost function Abstract(): Clock
      reads this
    {
      Clock(clockedIn, currentTime, buttonText, labelText, states)
    }

    /** Every timer belongs to this App and sits at the position of its
        serial, so none is listed twice; `states` mirrors the timers; and the abstract state keeps `ClockSpec.Inv`. */
    ghost predicate Valid()
      reads this, timers
    {
      && |states| == |timers|
      && (forall k :: 0 <= k < |timers| ==>
            timers[k].app == this && timers[k].serial == k
            && timers[k].running == states[k].running && timers[k].pending == states[k].pending)
      && Inv(Abstract())
    }

    /** The window as `App.__init__` and the main block set it up: clocked
        out, counter 0, button "Clock In", label "00:00:00". */
    constructor ()
      ensures Valid() && Abstract() == Initial()
    {
      clockedIn := false;
      currentTime := 0;
      buttonText := ClockInText;
      labelText := InitialLabel;
      timers := [];
      states := [];
      new;
      InitialInv();
    }

    /** `toggleClockState`: clock out when clocked in, clock in otherwise;
        always returns 0. */
    method ToggleClockState() returns (status: int)
      requires Valid()
      modifies this, timers
      ensures Valid() && status == 0
      ensures Abstract() == Step(old(Abstract()), Toggle)
      ensures old(clockedIn) ==> timers == old(timers)
      ensures !old(clockedIn) ==>
        |timers| == |old(timers)| + 1 && timers[..|old(timers)|] == old(timers)
        && fresh(timers[|timers| - 1])
    {
      if clockedIn {
        ClockOut();
      } else {
        ClockIn();
      }
      status := 0;
    }

    /** The clocked-in branch of `toggleClockState`: clear `clocked_in`, set
        the button to "Clock In" and stop the current timer. */
    method ClockOut()
      requires Valid() && clockedIn
      modifies this, timers
      ensures Valid() && timers == old(timers)
      ensures Abstract() == ToggleStep(old(Abstract()))
    {
      ghost var before := Abstract();
      ToggleInv(before);
      assert |timers| > 0;
      hide FormatMinutes, Inv;
      clockedIn := false;
      buttonText := ClockInText;
      var timer := timers[|timers| - 1];
      timer.Stop();
      states := states[|states| - 1 := timer.State()];
      assert forall k :: 0 <= k < |timers| - 1 ==> timers[k] != timer;
      assert Abstract() == ToggleStep(before);
    }

    /** The clocked-out branch of `toggleClockState`: set `clocked_in`, set
        the button to "Clock Out", create a fresh Timer as `self.timer` and
        start it. */
    method ClockIn()
      requires Valid() && !clockedIn
      modifies this
      ensures Valid()
      ensures Abstract() == ToggleStep(old(Abstract()))
      ensures |timers| == |old(timers)| + 1 && timers[..|old(timers)|] == old(timers)
      ensures fresh(timers[|timers| - 1])
    {
      ghost var before := Abstract();
      ghost var after := before.(clockedIn := true, buttonText := ClockOutText,
                                 timers := before.timers + [TimerState(true, 1)]);
      assert ToggleStep(before) == after;
      ToggleInv(before);
      hide FormatMinutes, Inv, ToggleStep;
      clockedIn := true;
      buttonText := ClockOutText;
      var timer := new Timer(this, |timers|);
      timers := timers + [timer];
      timer.Run();
      states := states + [timer.State()];
      assert Abstract() == after;
    }

    /** The event loop fires one scheduled callback of timer `i`. */
    method Tick(i: nat)
      requires Valid() && i < |timers| && timers[i].pending > 0
      modifies this, timers[i]
      ensures Valid() && timers == old(timers)
      ensures Abstract() == Step(old(Abstract()), Event.Tick(i))
    {
      ghost var before := Abstract();
      TickInv(before, i);
      if timers[i].running {
        TickRunning(i);
      } else {
        TickStopped(i);
      }
    }

    /** A callback of a running timer: the counter and the label advance. */
    method TickRunning(i: nat)
      requires Valid() && i < |timers| && timers[i].pending > 0 && timers[i].running
      modifies this, timers[i]
      ensures Valid() && timers == old(timers)
      ensures Abstract() == TickStep(old(Abstract()), i)
    {
      ghost var before := Abstract();
      ghost var after := TickStep(before, i);
      TickInv(before, i);
      assert after == before.(currentTime := before.currentTime + 1,
                              labelText := FormatMinutes(before.currentTime + 1));
      hide FormatMinutes, Inv, TickStep;
      var timer := timers[i];
      assert timer.app == this;
      timer.Fire();
      assert timer.State() == states[i];
      forall k | 0 <= k < |timers|
        ensures timers[k].running == states[k].running && timers[k].pending == states[k].pending
      {
        if k != i { assert timers[k] != timer; }
      }
      assert currentTime == after.currentTime && labelText == after.labelText;
      assert Abstract() == after;
    }

    /** A callback of a stopped timer: it is consumed and nothing else moves. */
    method TickStopped(i: nat)
      requires Valid() && i < |timers| && timers[i].pending > 0 && !timers[i].running
      modifies this, timers[i]
      ensures Valid() && timers == old(timers)
      ensures Abstract() == TickStep(old(Abstract()), i)
    {
      ghost var before := Abstract();
      ghost var after := TickStep(before, i);
      TickInv(before, i);
      assert after == before.(timers := before.timers[i := TimerState(false, before.timers[i].pending - 1)]);
      hide FormatMinutes, Inv, TickStep;
      var timer := timers[i];
      assert timer.app == this;
      timer.Fire();
      assert timer.State() == after.timers[i];
      states := states[i := timer.State()];
      assert states == after.timers;
      forall k | 0 <= k < |timers|
        ensures timers[k].running == states[k].running && timers[k].pending == states[k].pending
      {
        if k != i { assert timers[k] != timer; }
      }
      assert Abstract() == after;
    }
  }

  /** A session as a user and the event loop drive it: clock in, one minute
      passes, clock out, the first timer's pending callback fires and finds it
      stopped, clock in again with a second timer, one more minute passes. The
      counter carries over the clocked-out interval. */
  method Session()
  {
    var app := new App();
    hide FormatMinutes;
    var status := app.ToggleClockState();
    app.Tick(0);
    assert app.currentTime == 1;
    status := app.ToggleClockState();
    assert app.timers[0].pending == 1;
    app.Tick(0);
    assert app.currentTime == 1 && app.timers[0].pending == 0;
    status := app.ToggleClockState();
    assert app.clockedIn && app.buttonText == ClockOutText && |app.timers| == 2;
    app.Tick(1);
    assert app.currentTime == 2 && app.labelText == FormatMinutes(2);
  }
}
