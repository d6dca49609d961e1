/**
 * The `MrpTimer` field widget: a duration in minutes that counts up once a
 * second while the work order is ongoing, is corrected for wall-clock drift
 * every ten seconds, and follows the props it is given.
 *
 * The scheduler is taken out: each `setTimeout` callback that fires is an
 * explicit call, the current wall-clock time (`Date.now()`) is a parameter,
 * and the callbacks still pending are counted in `tickCallbacks` (the
 * per-second loop) and `driftCallbacks` (the drift loop). `TimerState` is the
 * value of the widget's state, the functions over it are the rules each
 * lifecycle callback follows, and the class `MrpTimer` performs them in place.
 */
module MrpTimerWidget {
  import opened Wrappers
  import MinutesFormat

  /** Delay of the drift loop, in milliseconds. */
  const DRIFT_DELAY_MS: int := 10000
  /** Lateness beyond which the drift loop corrects the duration, in milliseconds. */
  const DRIFT_THRESHOLD_MS: int := 1000
  /** Milliseconds per minute (`1000 * 60`). */
  const MS_PER_MINUTE: real := 60000.0
  /** What one per-second tick adds (`1 / 60` of a minute). */
  const TICK_MINUTES: real := 1.0 / 60.0

  /** The fields of the bound record the widget reads. */
  datatype RecordData = RecordData(
    duration: real,         // record.data.duration, in minutes
    isUserWorking: bool,    // record.data.is_user_working
    state: string,          // record.data.state
    isDirty: bool,          // record.isDirty
    useSampleModel: bool)   // record.model.useSampleModel

  /** The widget's props; `None` is a prop that is not supplied. */
  datatype Props = Props(value: Option<real>, ongoing: Option<bool>, record: RecordData)

  /** The widget's state, with the number of callbacks of each loop still pending. */
  datatype TimerState = TimerState(
    props: Props,
    duration: real,
    ongoing: bool,
    lastDateTime: int,
    tickCallbacks: nat,
    driftCallbacks: nat)

  /** `setup`: duration and ongoing come from the props, falling back on the record. */
  function Setup(props: Props, now: int): (s: TimerState)
    ensures s.props == props && s.lastDateTime == now
    ensures props.value.Some? ==> s.duration == props.value.value
    ensures props.value.None? ==> s.duration == props.record.duration
    ensures props.ongoing.Some? ==> s.ongoing == props.ongoing.value
    ensures props.ongoing.None? ==> s.ongoing == props.record.isUserWorking
    ensures s.tickCallbacks == 0 && s.driftCallbacks == 0
  {
    TimerState(
      props,
      props.value.GetOr(props.record.duration),
      props.ongoing.GetOr(props.record.isUserWorking),
      now, 0, 0)
  }

  /** Whether start-up asks the server for the time already worked. */
  predicate FetchesWorkingDuration(props: Props) {
    props.ongoing.None? && !props.record.useSampleModel && props.record.state == "progress"
  }

  /** `_runTimer(); _runSleepTimer();`: one more pending callback of each loop. */
  function StartLoops(s: TimerState): TimerState {
    s.(tickCallbacks := s.tickCallbacks + 1, driftCallbacks := s.driftCallbacks + 1)
  }

  /** `onWillStart`, given the server's answer `additionalDuration`. */
  function StartUp(s: TimerState, additionalDuration: real): (r: TimerState)
    ensures r.duration == s.duration + (if FetchesWorkingDuration(s.props) then additionalDuration else 0.0)
    ensures r.tickCallbacks == s.tickCallbacks + (if s.ongoing then 1 else 0)
    ensures r.driftCallbacks == s.driftCallbacks + (if s.ongoing then 1 else 0)
    ensures r.props == s.props && r.ongoing == s.ongoing && r.lastDateTime == s.lastDateTime
  {
    var s' := if FetchesWorkingDuration(s.props) then s.(duration := s.duration + additionalDuration) else s;
    if s'.ongoing then StartLoops(s') else s'
  }

  /** The ongoing flag new props ask for. */
  function NewOngoing(next: Props): bool {
    next.ongoing.GetOr(next.record.isUserWorking)
  }

  /** `onWillUpdateProps(nextProps)`, after which the widget holds `nextProps`. */
  function UpdateProps(s: TimerState, next: Props): (r: TimerState)
    ensures r.props == next && r.ongoing == NewOngoing(next) && r.lastDateTime == s.lastDateTime
    ensures !s.ongoing && NewOngoing(next) ==>
      && (next.value.Some? ==> r.duration == next.value.value)
      && r.tickCallbacks == s.tickCallbacks + 1 && r.driftCallbacks == s.driftCallbacks + 1
    ensures s.ongoing || !NewOngoing(next) ==>
      r.duration == s.duration && r.tickCallbacks == s.tickCallbacks && r.driftCallbacks == s.driftCallbacks
  {
    var newOngoing := NewOngoing(next);
    var rerun := !s.ongoing && newOngoing;
    var s' := s.(props := next, ongoing := newOngoing);
    if rerun then StartLoops(s'.(duration := next.value.GetOr(s.duration))) else s'
  }

  /**
   * `onWillUpdateProps(nextProps)` as evidently intended, at wall-clock time
   * `now`: a restart also restarts the drift clock, so the first drift check
   * measures from the restart rather than from the last check before it.
   */
  function RestartProps(s: TimerState, next: Props, now: int): TimerState {
    var r := UpdateProps(s, next);
    if !s.ongoing && NewOngoing(next) then r.(lastDateTime := now) else r
  }

  /** One per-second callback fires. */
  function Tick(s: TimerState): (r: TimerState)
    requires s.tickCallbacks > 0
    ensures s.ongoing ==> r.duration == s.duration + TICK_MINUTES && r.tickCallbacks == s.tickCallbacks
    ensures !s.ongoing ==> r.duration == s.duration && r.tickCallbacks == s.tickCallbacks - 1
    ensures r.props == s.props && r.ongoing == s.ongoing && r.lastDateTime == s.lastDateTime
    ensures r.driftCallbacks == s.driftCallbacks
  {
    if s.ongoing then s.(duration := s.duration + TICK_MINUTES)
    else s.(tickCallbacks := s.tickCallbacks - 1)
  }

  /** How late a drift callback firing at `now` is, in milliseconds. */
  function Lateness(s: TimerState, now: int): int {
    now - s.lastDateTime - DRIFT_DELAY_MS
  }

  /** One drift callback fires at wall-clock time `now`. */
  function DriftTick(s: TimerState, now: int): (r: TimerState)
    requires s.driftCallbacks > 0
    ensures r.duration >= s.duration
    ensures r.lastDateTime == now && r.driftCallbacks == s.driftCallbacks
    ensures r.props == s.props && r.ongoing == s.ongoing && r.tickCallbacks == s.tickCallbacks
  {
    var diff := Lateness(s, now);
    var duration := if diff > DRIFT_THRESHOLD_MS then s.duration + diff as real / MS_PER_MINUTE else s.duration;
    s.(duration := duration, lastDateTime := now)
  }

  /** The side effect of the `durationFormatted` getter: a dirty record's value wins. */
  function SnapToProps(s: TimerState): (r: TimerState)
    ensures r.duration == s.duration || Some(r.duration) == s.props.value
    ensures r == s.(duration := r.duration)
  {
    match s.props.value
    case Some(v) => if v != s.duration && s.props.record.isDirty then s.(duration := v) else s
    case None => s
  }

  /** The text `durationFormatted` returns. */
  function DurationText(s: TimerState): (text: string)
    ensures MinutesFormat.ParseClock(text) == Some(MinutesFormat.ClockOf(SnapToProps(s).duration))
  {
    MinutesFormat.FormatRoundTrip(SnapToProps(s).duration);
    MinutesFormat.FormatMinutes(MinutesFormat.Minutes(SnapToProps(s).duration))
  }

  /** The widget, updated in place by its lifecycle callbacks. */
  class MrpTimer {
    var props: Props
    var duration: real
    var ongoing: bool
    var lastDateTime: int
    var tickCallbacks: nat
    var driftCallbacks: nat

    function State(): TimerState
      reads this
    {
      TimerState(props, duration, ongoing, lastDateTime, tickCallbacks, driftCallbacks)
    }

    /** `setup()`, at wall-clock time `now`. */
    constructor (props: Props, now: int)
      ensures State() == Setup(props, now)
      ensures props.value.Some? ==> duration == props.value.value
      ensures props.value.None? ==> duration == props.record.duration
      ensures props.ongoing.Some? ==> ongoing == props.ongoing.value
      ensures props.ongoing.None? ==> ongoing == props.record.isUserWorking
      ensures lastDateTime == now && tickCallbacks == 0 && driftCallbacks == 0
    {
      this.props := props;
      duration := props.value.GetOr(props.record.duration);
      ongoing := props.ongoing.GetOr(props.record.isUserWorking);
      lastDateTime := now;
      tickCallbacks, driftCallbacks := 0, 0;
    }

    /** `_runTimer()`: schedules one per-second callback. */
    method RunTimer()
      modifies this
      ensures State() == old(State()).(tickCallbacks := old(tickCallbacks) + 1)
    {
      tickCallbacks := tickCallbacks + 1;
    }

    /** `_runSleepTimer()`: schedules one drift callback. */
    method RunSleepTimer()
      modifies this
      ensures State() == old(State()).(driftCallbacks := old(driftCallbacks) + 1)
    {
      driftCallbacks := driftCallbacks + 1;
    }

    /**
     * `onWillStart`, with the answer of `get_working_duration` passed in as
     * `additionalDuration` (used only when the widget asks for it).
     */
    method WillStart(additionalDuration: real)
      modifies this
      ensures State() == StartUp(old(State()), additionalDuration)
      ensures duration == old(duration) + (if FetchesWorkingDuration(props) then additionalDuration else 0.0)
      ensures tickCallbacks == old(tickCallbacks) + (if ongoing then 1 else 0)
      ensures driftCallbacks == old(driftCallbacks) + (if ongoing then 1 else 0)
      ensures props == old(props) && ongoing == old(ongoing) && lastDateTime == old(lastDateTime)
    {
      if FetchesWorkingDuration(props) {
        duration := duration + additionalDuration;
      }
      if ongoing {
        RunTimer();
        RunSleepTimer();
      }
    }

    /** `onWillUpdateProps(nextProps)`, after which the widget holds `nextProps`. */
    method WillUpdateProps(nextProps: Props)
      modifies this
      ensures State() == UpdateProps(old(State()), nextProps)
      ensures props == nextProps && ongoing == NewOngoing(nextProps)
      ensures var rerun := !old(ongoing) && ongoing;
        && duration == (if rerun then nextProps.value.GetOr(old(duration)) else old(duration))
        && tickCallbacks == old(tickCallbacks) + (if rerun then 1 else 0)
        && driftCallbacks == old(driftCallbacks) + (if rerun then 1 else 0)
      ensures lastDateTime == old(lastDateTime)
    {
      var newOngoing := NewOngoing(nextProps);
      var rerun := !ongoing && newOngoing;
      ongoing := newOngoing;
      if rerun {
        duration := nextProps.value.GetOr(duration);
        RunTimer();
        RunSleepTimer();
      }
      props := nextProps;
    }

    /** The `durationFormatted` getter: snaps to a dirty record's value, then formats. */
    method DurationFormatted() returns (text: string)
      modifies this
      ensures State() == SnapToProps(old(State()))
      ensures text == MinutesFormat.FormatMinutes(MinutesFormat.Minutes(duration))
      ensures text == DurationText(old(State()))
    {
      if props.value.Some? && props.value.value != duration && props.record.isDirty {
        duration := props.value.value;
      }
      text := MinutesFormat.FormatMinutes(MinutesFormat.Minutes(duration));
    }

    /** A pending per-second callback fires: it counts one second while ongoing, else it ends. */
    method TickFired()
      requires tickCallbacks > 0
      modifies this
      ensures State() == Tick(old(State()))
      ensures old(ongoing) ==> duration == old(duration) + TICK_MINUTES && tickCallbacks == old(tickCallbacks)
      ensures !old(ongoing) ==> duration == old(duration) && tickCallbacks == old(tickCallbacks) - 1
      ensures props == old(props) && ongoing == old(ongoing) && lastDateTime == old(lastDateTime)
      ensures driftCallbacks == old(driftCallbacks)
    {
      tickCallbacks := tickCallbacks - 1;
      if ongoing {
        duration := duration + TICK_MINUTES;
        RunTimer();
      }
    }

    /** A pending drift callback fires at wall-clock time `now`; it always reschedules. */
    method DriftFired(now: int)
      requires driftCallbacks > 0
      modifies this
      ensures State() == DriftTick(old(State()), now)
      ensures var diff := now - old(lastDateTime) - DRIFT_DELAY_MS;
        duration == old(duration) + (if diff > DRIFT_THRESHOLD_MS then diff as real / MS_PER_MINUTE else 0.0)
      ensures lastDateTime == now && driftCallbacks == old(driftCallbacks)
      ensures props == old(props) && ongoing == old(ongoing) && tickCallbacks == old(tickCallbacks)
    {
      driftCallbacks := driftCallbacks - 1;
      var diff := now - lastDateTime - DRIFT_DELAY_MS;
      if diff > DRIFT_THRESHOLD_MS {
        duration := duration + diff as real / MS_PER_MINUTE;
      }
      lastDateTime := now;
      RunSleepTimer();
    }
  }
}
