/** The time clock's observable state as a value, and the effect of each event
    on it: a press of the toggle button (`App.toggleClockState`) or the firing of
    a callback that some `Timer` scheduled with `root.after` (`Timer.updateTime`).
    The classes in module TimeClock are proved to follow `Step`; the lemmas here
    state what holds of every run.
 */
module ClockSpec {
  import opened MinutesFormat

  /** One `Timer` object: its `_is_running` flag and how many of its
      `updateTime` callbacks the event loop holds and has not yet fired. */
  datatype TimerState = TimerState(running: bool, pending: nat)

  /** The App's state: `clocked_in`, `current_time`, the text of the toggle
      button and of the total-time label, and every Timer created so far, the
      last one being the App's current `timer`. */
  datatype Clock = Clock(
    clockedIn: bool,
    currentTime: nat,
    buttonText: string,
    labelText: string,
    timers: seq<TimerState>)

  datatype Event = Toggle | Tick(timer: nat)

  const ClockInText := "Clock In"
  const ClockOutText := "Clock Out"
  const InitialLabel := "00:00:00"

  /** The App as the window builds it: clocked out, counter 0, no Timer yet. */
  function Initial(): Clock {
    Clock(false, 0, ClockInText, InitialLabel, [])
  }

  /** `toggleClockState`: clocking out stops the current timer; clocking in
      creates a fresh Timer and runs it, which schedules its first callback.
      The counter and the label are left alone. */
  function ToggleStep(c: Clock): Clock {
    if c.clockedIn then
      var n := |c.timers|;
      // never empty while clocked in (see Inv)
      var stopped := if n > 0 then c.timers[n - 1 := c.timers[n - 1].(running := false)] else c.timers;
      c.(clockedIn := false, buttonText := ClockInText, timers := stopped)
    else
      c.(clockedIn := true, buttonText := ClockOutText, timers := c.timers + [TimerState(true, 1)])
  }

  /** The event loop fires one pending callback of timer `i`: `updateTime`
      increments the counter, rewrites the label and schedules itself again
      when the timer is running, and does nothing when it is not. A timer with
      no pending callback has nothing to fire. */
  function TickStep(c: Clock, i: nat): Clock {
    if i < |c.timers| && c.timers[i].pending > 0 then
      var t := c.timers[i];
      if t.running then
        c.(currentTime := c.currentTime + 1, labelText := FormatMinutes(c.currentTime + 1))
      else
        c.(timers := c.timers[i := t.(pending := t.pending - 1)])
    else c
  }

  function Step(c: Clock, e: Event): Clock {
    match e
    case Toggle => ToggleStep(c)
    case Tick(i) => TickStep(c, i)
  }

  function Run(c: Clock, events: seq<Event>): Clock
    decreases |events|
  {
    if events == [] then c else Run(Step(c, events[0]), events[1..])
  }

  function CountTicks(events: seq<Event>): nat {
    if events == [] then 0 else (if events[0].Tick? then 1 else 0) + CountTicks(events[1..])
  }

  function Ticks(i: nat, n: nat): (events: seq<Event>)
    ensures |events| == n
  {
    if n == 0 then [] else [Tick(i)] + Ticks(i, n - 1)
  }

  predicate AllTicks(events: seq<Event>) {
    forall k :: 0 <= k < |events| ==> events[k].Tick?
  }

  /** What the App keeps true between events: the button names the action it
      will take; the label shows the counter; the session is clocked in exactly
      when the current (last) timer runs; every earlier timer is stopped; and a
      running timer has exactly one callback scheduled, a stopped one at most
      one, so there is never more than one tick chain per timer. */
  ghost predicate Inv(c: Clock) {
    && c.buttonText == (if c.clockedIn then ClockOutText else ClockInText)
    && c.labelText == FormatMinutes(c.currentTime)
    && (c.clockedIn <==> |c.timers| > 0 && c.timers[|c.timers| - 1].running)
    && (forall k :: 0 <= k < |c.timers| - 1 ==> !c.timers[k].running)
    && (forall k :: 0 <= k < |c.timers| ==> c.timers[k].pending <= 1)
    && (forall k :: 0 <= k < |c.timers| ==> c.timers[k].running ==> c.timers[k].pending == 1)
  }

  // ---------------------------------------------------------------------------
  // One event
  // ---------------------------------------------------------------------------

  lemma InitialInv()
    ensures Inv(Initial())
  {
    FormatZero();
  }

  lemma StepInv(c: Clock, e: Event)
    requires Inv(c)
    ensures Inv(Step(c, e))
  {
    match e
    case Toggle => ToggleInv(c);
    case Tick(i) => TickInv(c, i);
  }

  lemma ToggleInv(c: Clock)
    requires Inv(c)
    ensures Inv(ToggleStep(c))
  {
    var d := ToggleStep(c);
    var n := |c.timers|;
    if c.clockedIn {
      assert d.timers == c.timers[n - 1 := c.timers[n - 1].(running := false)];
      assert forall k :: 0 <= k < n ==> !d.timers[k].running;
    } else {
      assert d.timers == c.timers + [TimerState(true, 1)];
      assert forall k :: 0 <= k < n ==> d.timers[k] == c.timers[k];
    }
  }

  lemma TickInv(c: Clock, i: nat)
    requires Inv(c)
    ensures Inv(TickStep(c, i))
  {
    if i < |c.timers| && c.timers[i].pending > 0 {
      if c.timers[i].running {
        RunningTickInv(c, i);
      } else {
        StoppedTickInv(c, i);
      }
    }
  }

  lemma RunningTickInv(c: Clock, i: nat)
    requires Inv(c) && i < |c.timers| && c.timers[i].pending > 0 && c.timers[i].running
    ensures Inv(TickStep(c, i))
  {
    var d := TickStep(c, i);
    assert d.timers == c.timers && d.clockedIn == c.clockedIn && d.buttonText == c.buttonText;
    assert d.labelText == FormatMinutes(d.currentTime);
  }

  lemma StoppedTickInv(c: Clock, i: nat)
    requires Inv(c) && i < |c.timers| && c.timers[i].pending > 0 && !c.timers[i].running
    ensures Inv(TickStep(c, i))
  {
    var d := TickStep(c, i);
    assert d.currentTime == c.currentTime && d.labelText == c.labelText;
    assert forall k :: 0 <= k < |c.timers| ==> d.timers[k].running == c.timers[k].running;
  }

  /** A toggle flips the session, names the next action on the button, and
      leaves the counter and the label as they were. */
  lemma ToggleEffect(c: Clock)
    requires Inv(c)
    ensures var d := Step(c, Toggle);
      d.clockedIn == !c.clockedIn
      && (d.buttonText == ClockOutText <==> d.clockedIn)
      && (d.buttonText == ClockInText <==> !d.clockedIn)
      && d.currentTime == c.currentTime && d.labelText == c.labelText
      && (d.clockedIn <==> d.timers[|d.timers| - 1].running)
  {
  }

  /** A tick of a stopped timer (an earlier Timer, or the current one after
      clocking out) changes nothing the App shows and ends that timer's chain. */
  lemma StoppedTickChangesNothing(c: Clock, i: nat)
    requires Inv(c)
    requires i < |c.timers| && !c.timers[i].running
    ensures var d := Step(c, Tick(i));
      d.currentTime == c.currentTime && d.labelText == c.labelText
      && d.clockedIn == c.clockedIn && d.buttonText == c.buttonText
      && |d.timers| == |c.timers|
      && (forall k :: 0 <= k < |c.timers| ==> d.timers[k].running == c.timers[k].running)
      && d.timers[i].pending == 0
  {
  }

  /** Only the current timer, and only while clocked in, advances the counter,
      and then by exactly one with the label showing the new count. */
  lemma OnlyCurrentTimerAdvances(c: Clock, i: nat)
    requires Inv(c)
    requires Step(c, Tick(i)).currentTime != c.currentTime
    ensures c.clockedIn && i == |c.timers| - 1
    ensures Step(c, Tick(i)).currentTime == c.currentTime + 1
    ensures Step(c, Tick(i)).labelText == FormatMinutes(c.currentTime + 1)
  {
    assert i < |c.timers| && c.timers[i].pending > 0 && c.timers[i].running;
  }

  /** Every event leaves the counter alone or adds one; only a tick adds. */
  lemma StepCounter(c: Clock, e: Event)
    ensures var t := Step(c, e).currentTime;
      t == c.currentTime || (e.Tick? && t == c.currentTime + 1)
  {
  }

  // ---------------------------------------------------------------------------
  // Runs of events
  // ---------------------------------------------------------------------------

  lemma {:induction false} RunInv(c: Clock, events: seq<Event>)
    requires Inv(c)
    ensures Inv(Run(c, events))
    decreases |events|
  {
    if events != [] {
      StepInv(c, events[0]);
      RunInv(Step(c, events[0]), events[1..]);
    }
  }

  /** The counter never decreases, and grows by at most one per tick: toggles
      never reset it. */
  lemma {:induction false} RunCounterBounds(c: Clock, events: seq<Event>)
    ensures c.currentTime <= Run(c, events).currentTime <= c.currentTime + CountTicks(events)
    decreases |events|
  {
    if events != [] {
      StepCounter(c, events[0]);
      RunCounterBounds(Step(c, events[0]), events[1..]);
    }
  }

  /** While clocked in, n firings of the current timer advance the counter by
      exactly n and leave the label showing it. */
  lemma {:induction false} ClockedInTicks(c: Clock, n: nat)
    requires Inv(c) && c.clockedIn
    ensures Inv(Run(c, Ticks(|c.timers| - 1, n)))
    ensures Run(c, Ticks(|c.timers| - 1, n)).clockedIn
    ensures Run(c, Ticks(|c.timers| - 1, n)).timers == c.timers
    ensures Run(c, Ticks(|c.timers| - 1, n)).currentTime == c.currentTime + n
    ensures Run(c, Ticks(|c.timers| - 1, n)).labelText == FormatMinutes(c.currentTime + n)
    decreases n
  {
    hide FormatMinutes;
    var i := |c.timers| - 1;
    var events := Ticks(i, n);
    if n > 0 {
      assert events[1..] == Ticks(i, n - 1);
      assert c.timers[i].running && c.timers[i].pending == 1;
      var c' := Step(c, Tick(i));
      assert c' == c.(currentTime := c.currentTime + 1, labelText := FormatMinutes(c.currentTime + 1));
      RunningTickInv(c, i);
      ClockedInTicks(c', n - 1);
      var d := Run(c', events[1..]);
      assert Run(c, events) == d;
      assert d.currentTime == c'.currentTime + (n - 1);
      assert Run(c, events).currentTime == c.currentTime + n;
      assert Inv(Run(c, events));
    } else {
      assert events == [];
      assert Run(c, events) == c;
    }
  }

  /** While clocked out, no firing of any timer, however scheduled, moves the
      counter or the label. */
  lemma {:induction false} ClockedOutFrozen(c: Clock, events: seq<Event>)
    requires Inv(c) && !c.clockedIn && AllTicks(events)
    ensures var d := Run(c, events);
      Inv(d) && !d.clockedIn && d.currentTime == c.currentTime && d.labelText == c.labelText
    decreases |events|
  {
    hide FormatMinutes;
    if events != [] {
      StepInv(c, events[0]);
      assert AllTicks(events[1..]) by {
        forall k | 0 <= k < |events| - 1 ensures events[1..][k].Tick? {
          assert events[1..][k] == events[k + 1];
        }
      }
      ClockedOutFrozen(Step(c, events[0]), events[1..]);
    }
  }

  /** Clocking in, out and in again keeps the counter across the clocked-out
      interval, whatever fires meanwhile. */
  lemma ToggleOutAndInKeepsCounter(c: Clock, ticks: seq<Event>)
    requires Inv(c) && c.clockedIn && AllTicks(ticks)
    ensures var d := Run(Run(Step(c, Toggle), ticks), [Toggle]);
      d.clockedIn && d.currentTime == c.currentTime && d.labelText == c.labelText
  {
    StepInv(c, Toggle);
    ClockedOutFrozen(Step(c, Toggle), ticks);
  }
}
