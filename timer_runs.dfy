/**
 * Runs of the timer widget: sequences of the events that drive it (a pending
 * callback firing, new props, a render) and what they do to its state over
 * time. A callback event with no callback of that loop pending changes nothing,
 * as no callback runs.
 */
module MrpTimerRuns {
  import opened Wrappers
  import opened MrpTimerWidget
  import MinutesFormat

  datatype Event =
    | TickFires               // a pending `_runTimer` callback runs
    | DriftFires(now: int)    // a pending `_runSleepTimer` callback runs at wall-clock time `now`
    | NewProps(next: Props)   // `onWillUpdateProps(next)`
    | Render                  // the `durationFormatted` getter is read

  function Step(s: TimerState, e: Event): TimerState {
    match e
    case TickFires => if s.tickCallbacks == 0 then s else Tick(s)
    case DriftFires(now) => if s.driftCallbacks == 0 then s else DriftTick(s, now)
    case NewProps(next) => UpdateProps(s, next)
    case Render => SnapToProps(s)
  }

  function Run(s: TimerState, events: seq<Event>): TimerState
    decreases |events|
  {
    if events == [] then s else Run(Step(s, events[0]), events[1..])
  }

  /** `n` per-second callbacks firing one after the other. */
  function Ticks(n: nat): seq<Event> {
    if n == 0 then [] else [TickFires] + Ticks(n - 1)
  }

  /** Drift callbacks firing at the wall-clock times `times`, in order. */
  function DriftChecks(times: seq<int>): seq<Event>
    decreases |times|
  {
    if times == [] then [] else [DriftFires(times[0])] + DriftChecks(times[1..])
  }

  /** Each drift check in `times` comes at most 11 seconds (delay plus threshold) after the one before. */
  predicate Punctual(last: int, times: seq<int>)
    decreases |times|
  {
    times == [] || (times[0] - last <= DRIFT_DELAY_MS + DRIFT_THRESHOLD_MS && Punctual(times[0], times[1..]))
  }

  predicate NoNewProps(events: seq<Event>) {
    forall i :: 0 <= i < |events| ==> !events[i].NewProps?
  }

  /** While ongoing, `n` ticks add exactly `n` seconds and leave everything else, the loop included, as it was. */
  lemma {:induction false} RunningTimerCountsSeconds(s: TimerState, n: nat)
    requires s.ongoing && s.tickCallbacks > 0
    ensures Run(s, Ticks(n)) == s.(duration := s.duration + n as real / 60.0)
    decreases n
  {
    if n > 0 {
      var s' := Tick(s);
      assert Run(s, Ticks(n)) == Run(s', Ticks(n - 1));
      RunningTimerCountsSeconds(s', n - 1);
    }
  }

  /** While stopped, each tick ends one pending per-second callback and the duration does not move. */
  lemma {:induction false} StoppedTimerDrainsTicks(s: TimerState, n: nat)
    requires !s.ongoing
    ensures Run(s, Ticks(n)) == s.(tickCallbacks := if n >= s.tickCallbacks then 0 else s.tickCallbacks - n)
    decreases n
  {
    if n > 0 {
      assert Run(s, Ticks(n)) == Run(Step(s, TickFires), Ticks(n - 1));
      StoppedTimerDrainsTicks(Step(s, TickFires), n - 1);
    }
  }

  /** Only new props change the ongoing flag and the props. */
  lemma {:induction false} OnlyPropsChangeOngoing(s: TimerState, events: seq<Event>)
    requires NoNewProps(events)
    ensures Run(s, events).ongoing == s.ongoing
    ensures Run(s, events).props == s.props
    decreases |events|
  {
    if events != [] {
      assert !events[0].NewProps?;
      OnlyPropsChangeOngoing(Step(s, events[0]), events[1..]);
    }
  }

  /** The drift loop never stops itself: no event lowers the number of pending drift callbacks. */
  lemma {:induction false} DriftLoopNeverStops(s: TimerState, events: seq<Event>)
    ensures Run(s, events).driftCallbacks >= s.driftCallbacks
    decreases |events|
  {
    if events != [] {
      DriftLoopNeverStops(Step(s, events[0]), events[1..]);
    }
  }

  /**
   * A drift check changes the duration exactly when it comes more than 11
   * seconds after the last drift check (before the first one, after setup),
   * and then by exactly its lateness beyond the 10-second delay, in minutes;
   * the duration never decreases.
   */
  lemma DriftCorrectsOnlyLateness(s: TimerState, now: int)
    requires s.driftCallbacks > 0
    ensures DriftTick(s, now).duration != s.duration <==> Lateness(s, now) > DRIFT_THRESHOLD_MS
    ensures Lateness(s, now) > DRIFT_THRESHOLD_MS ==> DriftTick(s, now).duration == s.duration + Lateness(s, now) as real / MS_PER_MINUTE
    ensures DriftTick(s, now).duration >= s.duration
  {
  }

  /** Drift checks that each come at most 11 seconds after the previous one leave the duration alone. */
  lemma {:induction false} PunctualDriftChecksChangeNothing(s: TimerState, times: seq<int>)
    requires s.driftCallbacks > 0
    requires Punctual(s.lastDateTime, times)
    ensures Run(s, DriftChecks(times)) == s.(lastDateTime := if times == [] then s.lastDateTime else times[|times| - 1])
    decreases |times|
  {
    if times != [] {
      var s' := DriftTick(s, times[0]);
      assert s' == s.(lastDateTime := times[0]);
      assert Run(s, DriftChecks(times)) == Run(s', DriftChecks(times[1..]));
      PunctualDriftChecksChangeNothing(s', times[1..]);
      if |times| > 1 {
        assert times[1..][|times[1..]| - 1] == times[|times| - 1];
      }
    }
  }

  /** With no loop pending and a clean record, nothing but new props changes the widget. */
  lemma {:induction false} IdleTimerIsFrozen(s: TimerState, events: seq<Event>)
    requires s.tickCallbacks == 0 && s.driftCallbacks == 0 && !s.props.record.isDirty
    requires NoNewProps(events)
    ensures Run(s, events) == s
    decreases |events|
  {
    if events != [] {
      assert !events[0].NewProps?;
      assert Step(s, events[0]) == s;
      IdleTimerIsFrozen(s, events[1..]);
    }
  }

  /** A widget that starts stopped, on a clean record, keeps its start-up duration until new props arrive. */
  lemma StartedIdleStaysIdle(props: Props, now: int, additionalDuration: real, events: seq<Event>)
    requires !Setup(props, now).ongoing && !props.record.isDirty
    requires NoNewProps(events)
    ensures Run(StartUp(Setup(props, now), additionalDuration), events) == StartUp(Setup(props, now), additionalDuration)
  {
    IdleTimerIsFrozen(StartUp(Setup(props, now), additionalDuration), events);
  }

  /**
   * Stopping and restarting before the pending per-second callback fires
   * leaves two callbacks pending; both count, so one second of wall-clock
   * time adds two seconds.
   */
  lemma QuickRestartTicksTwice(s: TimerState, off: Props, on: Props, v: real)
    requires s.ongoing && s.tickCallbacks == 1
    requires !NewOngoing(off) && NewOngoing(on) && on.value == Some(v)
    ensures var r := Run(s, [NewProps(off), NewProps(on), TickFires, TickFires]);
      r.tickCallbacks == 2 && r.duration == v + 2.0 / 60.0
  {
    var s1 := UpdateProps(s, off);
    var s2 := UpdateProps(s1, on);
    assert s2.tickCallbacks == 2 && s2.duration == v && s2.ongoing;
    RunningTimerCountsSeconds(s2, 2);
    assert Ticks(2) == [TickFires, TickFires];
    assert Run(s, [NewProps(off), NewProps(on), TickFires, TickFires]) == Run(s2, Ticks(2));
  }

  /** Rendering a dirty record shows its value; a clean record keeps the ticking duration; rendering twice changes nothing more. */
  lemma DirtyValueWins(s: TimerState)
    ensures s.props.record.isDirty && s.props.value.Some? ==>
      SnapToProps(s).duration == s.props.value.value
      && DurationText(s) == MinutesFormat.FormatMinutes(MinutesFormat.Minutes(s.props.value.value))
    ensures !s.props.record.isDirty || s.props.value.None? ==> SnapToProps(s) == s
    ensures SnapToProps(SnapToProps(s)) == SnapToProps(s)
    ensures DurationText(SnapToProps(s)) == DurationText(s)
  {
  }

  /** A timer started from zero on a clean record shows `n / 60` minutes and `n % 60` seconds after `n` ticks. */
  lemma DisplayAfterSeconds(s: TimerState, n: nat)
    requires s.ongoing && s.tickCallbacks > 0 && s.duration == 0.0 && !s.props.record.isDirty
    ensures MinutesFormat.ParseClock(DurationText(Run(s, Ticks(n)))) == Some(MinutesFormat.Clock(false, n / 60, n % 60))
  {
    var r := Run(s, Ticks(n));
    var d := SnapToProps(r).duration;
    assert d == n as real / 60.0 by {
      RunningTimerCountsSeconds(s, n);
    }
    assert MinutesFormat.ClockOf(d) == MinutesFormat.Clock(false, n / 60, n % 60) by {
      MinutesFormat.WholeSecondsShown(n);
    }
    assert MinutesFormat.ParseClock(DurationText(r)) == Some(MinutesFormat.ClockOf(d));
  }

  /**
   * As written, a widget set up stopped at `t0` keeps that setup time as its
   * last drift check. When new props start it later, its first drift check,
   * punctual at ten seconds after the restart at `t1`, adds the whole stopped
   * period `t1 - t0` to the duration it was just given.
   */
  lemma RestartAddsIdleTime(props: Props, t0: int, additionalDuration: real, next: Props, v: real, t1: int)
    requires !Setup(props, t0).ongoing
    requires NewOngoing(next) && next.value == Some(v)
    requires t1 - t0 > DRIFT_THRESHOLD_MS
    ensures Run(StartUp(Setup(props, t0), additionalDuration), [NewProps(next), DriftFires(t1 + DRIFT_DELAY_MS)]).duration
      == v + (t1 - t0) as real / MS_PER_MINUTE
  {
    var s := StartUp(Setup(props, t0), additionalDuration);
    var r := UpdateProps(s, next);
    assert r.duration == v && r.driftCallbacks == 1;
    assert Lateness(r, t1 + DRIFT_DELAY_MS) == t1 - t0;
    DriftCorrectsOnlyLateness(r, t1 + DRIFT_DELAY_MS);
    var events := [NewProps(next), DriftFires(t1 + DRIFT_DELAY_MS)];
    assert events[1..] == [DriftFires(t1 + DRIFT_DELAY_MS)];
    assert [DriftFires(t1 + DRIFT_DELAY_MS)][1..] == [];
    assert Run(s, events) == Run(r, events[1..]);
    assert Run(r, events[1..]) == Run(DriftTick(r, t1 + DRIFT_DELAY_MS), []);
  }

  /**
   * With the drift clock restarted on a restart at `now`, the restart changes
   * nothing else, a drift check at most 11 seconds later leaves the new duration
   * alone, and a later one adds only the lateness measured from the restart.
   */
  lemma RestartedDriftCountsFromRestart(s: TimerState, next: Props, now: int, t: int)
    requires !s.ongoing && NewOngoing(next)
    ensures RestartProps(s, next, now) == UpdateProps(s, next).(lastDateTime := now)
    ensures var r := RestartProps(s, next, now);
      && r.driftCallbacks > 0
      && (t - now <= DRIFT_DELAY_MS + DRIFT_THRESHOLD_MS ==> DriftTick(r, t).duration == r.duration)
      && (t - now > DRIFT_DELAY_MS + DRIFT_THRESHOLD_MS ==>
            DriftTick(r, t).duration == r.duration + (t - now - DRIFT_DELAY_MS) as real / MS_PER_MINUTE)
  {
    var r := RestartProps(s, next, now);
    DriftCorrectsOnlyLateness(r, t);
  }
}
