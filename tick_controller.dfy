/**
 * The older, tick-based session controller, in the two versions that share
 * its logic (the `src/tomatinho` package and the single `src/tomatinho.py`
 * script). Instead of one timeout per interval, a 1-second source calls
 * `countdown`, which decrements `time_left` and completes the interval when
 * it reaches 0. States are the Portuguese state names, and these strings are
 * what gets logged. This module holds the behaviour both versions share, as
 * functions on a value; the two classes are proved against it.
 */
module TickController {
  import opened Wrappers
  import opened Scheduling
  import opened Events

  const IDLE_STATE: string := "Parado"
  const POMO_STATE: string := "Tomatando"
  const REST_S_STATE: string := "Pausa Curta"
  const REST_L_STATE: string := "Pausa Longa"

  /** The countdown source's period, in milliseconds. */
  const TICK_MS: nat := 1000

  /** The one callback the controller registers: the bound method `countdown`. */
  datatype Callback = CountdownCallback

  /** The controller's fields, its main loop and the rows of the `statistics` table. */
  datatype Session = Session(
    state: string,
    timerRunning: bool,
    timeLeft: int,
    countdownTimerId: Option<nat>,
    loop: LoopView<Callback>,
    log: seq<EventRecord<string>>)

  /** The countdown source as it is registered. */
  const TICKER: Source<Callback> := Source(TICK_MS, CountdownCallback)

  /** `timer_running` says whether the countdown source is pending, and the id names it. */
  predicate TimerWf(s: Session)
  {
    && IdsIssued(s.loop)
    && (s.timerRunning ==> s.countdownTimerId.Some? && s.loop.sources == map[s.countdownTimerId.value := TICKER])
    && (!s.timerRunning ==> s.loop.sources == map[])
  }

  /** The states a run can be in. `REST_L_STATE` is not among them: no action enters it. */
  predicate Reachable(state: string)
  {
    state == IDLE_STATE || state == POMO_STATE || state == REST_S_STATE
  }

  /** The controller's invariant: the countdown runs exactly when the state is not IDLE, with time left. */
  predicate Inv(s: Session)
  {
    && TimerWf(s)
    && Reachable(s.state)
    && (s.timerRunning <==> s.state != IDLE_STATE)
    && (s.timerRunning ==> s.timeLeft > 0)
  }

  /** The controller when the application starts: IDLE, no countdown, `time_left` 0, no id. */
  function Initial(log: seq<EventRecord<string>>): (s: Session)
    ensures Inv(s) && s.state == IDLE_STATE && !s.timerRunning && s.timeLeft == 0
    ensures s.countdownTimerId == None && s.loop.sources == map[] && s.log == log
  {
    Session(IDLE_STATE, false, 0, None, EmptyLoop(), log)
  }

  /**
   * `start_countdown_timer(start_time)`: remove the old source only when the
   * countdown runs, register a new 1-second source, set `time_left`.
   */
  function StartCountdownTimer(s: Session, startTime: int): (r: Session)
    requires TimerWf(s)
    ensures TimerWf(r) && r.timerRunning && r.timeLeft == startTime
    ensures r.countdownTimerId == Some(s.loop.nextId)
    ensures s.timerRunning ==> s.countdownTimerId.value !in r.loop.sources
    ensures r.state == s.state && r.log == s.log
  {
    var cleared := if s.timerRunning then Remove(s.loop, s.countdownTimerId.value) else s.loop;
    var (loop', id') := Add(cleared, TICK_MS, CountdownCallback);
    s.(countdownTimerId := Some(id'), loop := loop', timeLeft := startTime, timerRunning := true)
  }

  /** `stop_countdown_timer`: remove the source when the countdown runs; otherwise a no-op. The id is kept. */
  function StopCountdownTimer(s: Session): (r: Session)
    requires TimerWf(s)
    ensures TimerWf(r) && !r.timerRunning && r.loop.sources == map[]
    ensures !s.timerRunning ==> r == s
    ensures r.state == s.state && r.log == s.log && r.timeLeft == s.timeLeft
    ensures r.countdownTimerId == s.countdownTimerId
  {
    if s.timerRunning then s.(loop := Remove(s.loop, s.countdownTimerId.value), timerRunning := false) else s
  }

  /**
   * `countdown`, one tick: `time_left` goes down by exactly 1. While it is
   * not 0 the tick asks to be called again. At 0 it logs the state as
   * completed, goes IDLE, stops the countdown and asks not to be repeated.
   */
  function CountdownSpec(s: Session, now: Timestamp): (r: (Session, bool))
    requires TimerWf(s)
    ensures TimerWf(r.0) && r.0.timeLeft == s.timeLeft - 1
    ensures r.1 <==> s.timeLeft - 1 != 0
    ensures r.1 ==> r.0 == s.(timeLeft := s.timeLeft - 1)
    ensures !r.1 ==> r.0.state == IDLE_STATE && !r.0.timerRunning && r.0.loop.sources == map[]
    ensures !r.1 ==> r.0.log == s.log + [EventRecord(s.state, true, now)]
  {
    var ticked := s.(timeLeft := s.timeLeft - 1);
    if ticked.timeLeft == 0 then
      var logged := ticked.(log := ticked.log + [EventRecord(ticked.state, true, now)]);
      (StopCountdownTimer(logged.(state := IDLE_STATE)), false)
    else
      (ticked, true)
  }

  /** The main loop dispatches source `sid`: a pending source calls `countdown`; one that answers False is dropped. */
  function DispatchSpec(s: Session, sid: nat, now: Timestamp): (r: Session)
    requires TimerWf(s)
    ensures TimerWf(r)
    ensures sid !in s.loop.sources ==> r == s
    ensures Inv(s) ==> Inv(r)
  {
    if sid in s.loop.sources then
      var (ticked, repeat) := CountdownSpec(s, now);
      if repeat then ticked else ticked.(loop := Remove(ticked.loop, sid))
    else
      s
  }

  /** The shared shape of the three `start_*` actions: log the interval left, enter `newState`, count down `seconds`. */
  function StartSpec(s: Session, newState: string, seconds: int, now: Timestamp): (r: Session)
    requires TimerWf(s)
    ensures TimerWf(r) && r.state == newState && r.timerRunning && r.timeLeft == seconds
    ensures s.state != IDLE_STATE ==> r.log == s.log + [EventRecord(s.state, false, now)]
    ensures s.state == IDLE_STATE ==> r.log == s.log
  {
    var logged := if s.state != IDLE_STATE then s.(log := s.log + [EventRecord(s.state, false, now)]) else s;
    StartCountdownTimer(logged.(state := newState), seconds)
  }

  function StartPomodoroSpec(s: Session, now: Timestamp): (r: Session)
    requires TimerWf(s)
    ensures r.state == POMO_STATE && r.timeLeft == 25 * 60
    ensures Inv(s) ==> Inv(r)
  {
    StartSpec(s, POMO_STATE, 25 * 60, now)
  }

  function StartShortRestSpec(s: Session, now: Timestamp): (r: Session)
    requires TimerWf(s)
    ensures r.state == REST_S_STATE && r.timeLeft == 3 * 60
    ensures Inv(s) ==> Inv(r)
  {
    StartSpec(s, REST_S_STATE, 3 * 60, now)
  }

  /** `start_long_rest` as written: it enters `REST_S_STATE` with a 3-minute countdown, like the short rest. */
  function StartLongRestSpec(s: Session, now: Timestamp): (r: Session)
    requires TimerWf(s)
    ensures r.state == REST_S_STATE && r.state != REST_L_STATE && r.timeLeft == 3 * 60
    ensures Inv(s) ==> Inv(r)
  {
    StartSpec(s, REST_S_STATE, 3 * 60, now)
  }

  /** `stop_timer`: log a running interval as interrupted, go IDLE, stop the countdown. */
  function StopTimerSpec(s: Session, now: Timestamp): (r: Session)
    requires TimerWf(s)
    ensures r.state == IDLE_STATE && !r.timerRunning && r.loop.sources == map[]
    ensures s.state != IDLE_STATE ==> r.log == s.log + [EventRecord(s.state, false, now)]
    ensures s.state == IDLE_STATE ==> r.log == s.log
    ensures Inv(s) ==> Inv(r)
  {
    var logged := if s.state != IDLE_STATE then s.(log := s.log + [EventRecord(s.state, false, now)]) else s;
    StopCountdownTimer(logged.(state := IDLE_STATE))
  }

  /** `quit`: log a running interval as interrupted; nothing else changes. */
  function QuitSpec(s: Session, now: Timestamp): (r: Session)
    ensures r.(log := s.log) == s
    ensures s.state != IDLE_STATE ==> r.log == s.log + [EventRecord(s.state, false, now)]
    ensures s.state == IDLE_STATE ==> r.log == s.log
  {
    if s.state != IDLE_STATE then s.(log := s.log + [EventRecord(s.state, false, now)]) else s
  }

  /** Starting a long rest is indistinguishable from starting a short one. */
  lemma LongRestIsAShortRest(s: Session, now: Timestamp)
    requires TimerWf(s)
    ensures StartLongRestSpec(s, now) == StartShortRestSpec(s, now)
  {
  }

  /** What can happen to the controller: the menu's four actions and a tick of the countdown source. */
  datatype Action =
    | StartPomodoro(now: Timestamp)
    | StartShortRest(now: Timestamp)
    | StartLongRest(now: Timestamp)
    | MenuStop(now: Timestamp)
    | Tick(sid: nat, now: Timestamp)
    | Quit(now: Timestamp)

  function Step(s: Session, a: Action): (r: Session)
    requires Inv(s)
    ensures Inv(r)
    ensures |s.log| <= |r.log| <= |s.log| + 1 && s.log <= r.log
    ensures forall i :: |s.log| <= i < |r.log| ==> r.log[i].operation == s.state && s.state != IDLE_STATE
  {
    match a
    case StartPomodoro(now) => StartPomodoroSpec(s, now)
    case StartShortRest(now) => StartShortRestSpec(s, now)
    case StartLongRest(now) => StartLongRestSpec(s, now)
    case MenuStop(now) => StopTimerSpec(s, now)
    case Tick(sid, now) => DispatchSpec(s, sid, now)
    case Quit(now) => QuitSpec(s, now)
  }

  /** A run of actions; nothing after the first Quit happens. */
  function Run(s: Session, actions: seq<Action>): (r: Session)
    requires Inv(s)
    ensures Inv(r)
    decreases |actions|
  {
    if actions == [] then s
    else if actions[0].Quit? then Step(s, actions[0])
    else Run(Step(s, actions[0]), actions[1..])
  }

  predicate Quits(actions: seq<Action>)
  {
    exists i :: 0 <= i < |actions| && actions[i].Quit?
  }

  /** The intervals a run starts before it quits. */
  function Started(actions: seq<Action>): nat
    decreases |actions|
  {
    if actions == [] || actions[0].Quit? then 0
    else
      var a := actions[0];
      (if a.StartPomodoro? || a.StartShortRest? || a.StartLongRest? then 1 else 0) + Started(actions[1..])
  }

  function Open(s: Session): nat
  {
    if s.state != IDLE_STATE then 1 else 0
  }

  /**
   * Every interval started yields exactly one record, as in the current
   * controller. Appended rows name a running state, so never IDLE, and never
   * `REST_L_STATE`: long rests are logged as short rests.
   */
  lemma {:induction false} OneRecordPerInterval(s: Session, actions: seq<Action>)
    requires Inv(s)
    ensures s.log <= Run(s, actions).log
    ensures forall i :: |s.log| <= i < |Run(s, actions).log| ==>
              Run(s, actions).log[i].operation in {POMO_STATE, REST_S_STATE}
    ensures |Run(s, actions).log| - |s.log| + (if Quits(actions) then 0 else Open(Run(s, actions)))
            == Open(s) + Started(actions)
    decreases |actions|
  {
    if actions != [] {
      var a := actions[0];
      var s1 := Step(s, a);
      if a.Quit? {
        assert Quits(actions) by { assert actions[0].Quit?; }
      } else {
        var rest := actions[1..];
        OneRecordPerInterval(s1, rest);
        assert Quits(actions) <==> Quits(rest) by {
          if Quits(actions) {
            var j :| 0 <= j < |actions| && actions[j].Quit?;
            assert j != 0 && rest[j - 1] == actions[j];
          }
          if Quits(rest) {
            var j :| 0 <= j < |rest| && rest[j].Quit?;
            assert actions[j + 1] == rest[j];
          }
        }
        var r := Run(s1, rest);
        assert r == Run(s, actions);
        forall i | |s.log| <= i < |r.log| ensures r.log[i].operation in {POMO_STATE, REST_S_STATE} {
          if i < |s1.log| {
            assert r.log[i] == s1.log[i];
          }
        }
      }
    }
  }

  /** The countdown source dispatched once per timestamp in `times`. */
  function Ticks(s: Session, sid: nat, times: seq<Timestamp>): Session
    requires TimerWf(s)
    decreases |times|
  {
    if times == [] then s else Ticks(DispatchSpec(s, sid, times[0]), sid, times[1..])
  }

  /**
   * A countdown started at n > 0 completes after exactly n ticks: fewer
   * ticks only lower `time_left`, and the n-th logs the interval as
   * completed at its own time and leaves the controller IDLE and stopped.
   */
  lemma {:induction false} CompletesAfterExactlyNTicks(s: Session, times: seq<Timestamp>)
    requires Inv(s) && s.timerRunning && |times| <= s.timeLeft
    ensures |times| < s.timeLeft ==>
              Ticks(s, s.countdownTimerId.value, times) == s.(timeLeft := s.timeLeft - |times|)
    ensures |times| == s.timeLeft ==>
              var r := Ticks(s, s.countdownTimerId.value, times);
              r.state == IDLE_STATE && !r.timerRunning && r.loop.sources == map[]
              && r.log == s.log + [EventRecord(s.state, true, times[|times| - 1])]
    decreases |times|
  {
    if times != [] {
      var sid := s.countdownTimerId.value;
      var s1 := DispatchSpec(s, sid, times[0]);
      if s.timeLeft == 1 {
        assert |times| == 1;
        assert Ticks(s1, sid, times[1..]) == s1;
      } else {
        assert s1 == s.(timeLeft := s.timeLeft - 1);
        CompletesAfterExactlyNTicks(s1, times[1..]);
      }
    }
  }
}
