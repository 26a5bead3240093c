/**
 * The current session controller, `Tomatinho`: a four-state machine that
 * logs the interval it leaves, switches state and (re)arms the state timer
 * with `stop_timer` as the callback. Icons, labels and notifications are
 * display calls and are left out; the clock is the `now` parameter.
 */
module Controller {
  import opened Wrappers
  import opened Scheduling
  import Timers
  import opened States
  import opened Events

  /** Interval lengths in minutes; the timer is armed with minutes * 60. */
  const POMODORO_MINUTES: nat := 25
  const SHORT_REST_MINUTES: nat := 5
  const LONG_REST_MINUTES: nat := 15

  /** The one callback the controller gives its timer: the bound method `stop_timer`. */
  datatype Callback = StopTimerCallback

  /** The menu item a menu action is called with, as `source`. */
  datatype MenuItem = StopItem

  /** The controller's state, its timer and the rows of the `statistics` table. */
  datatype Session = Session(state: State, timer: Timers.TimerView<Callback>, log: seq<EventRecord<int>>)

  /** The length, in minutes, of each interval kind. */
  function Minutes(kind: State): nat
  {
    if kind == POMODORO then POMODORO_MINUTES
    else if kind == SHORT_REST then SHORT_REST_MINUTES
    else if kind == LONG_REST then LONG_REST_MINUTES
    else 0
  }

  /** The source the timer holds while `kind` runs. */
  function Armed(kind: State): Source<Callback>
  {
    Source(Minutes(kind) * 60, StopTimerCallback)
  }

  /**
   * The controller's invariant: the timer slot is full exactly when the state
   * is not IDLE, and then it names the one pending source, armed with the
   * length of the current interval and `stop_timer` as callback.
   */
  predicate Inv(s: Session)
  {
    && Timers.SingleSlot(s.timer)
    && (s.state != IDLE <==> s.timer.id.Some?)
    && (s.state != IDLE ==> s.timer.loop.sources == map[s.timer.id.value := Armed(s.state)])
  }

  /** A timer is pending exactly when the state is not IDLE. */
  lemma PendingIffNotIdle(s: Session)
    requires Inv(s)
    ensures Timers.Pending(s.timer) <==> s.state != IDLE
    ensures s.state == IDLE ==> s.timer.loop.sources == map[]
  {
  }

  /** The controller when the application starts: IDLE, no timer, the log as the last run left it. */
  function Initial(log: seq<EventRecord<int>>): (s: Session)
    ensures Inv(s) && s.state == IDLE && !Timers.Pending(s.timer) && s.log == log
  {
    Session(IDLE, Timers.Fresh(), log)
  }

  /** The record a user action writes for the interval it cuts short: one row if it was running, none in IDLE. */
  function Interrupted(state: State, now: Timestamp): (rows: seq<EventRecord<int>>)
    ensures state == IDLE ==> rows == []
    ensures state != IDLE ==> rows == [EventRecord(state, false, now)]
  {
    if state != IDLE then [EventRecord(state, false, now)] else []
  }

  /** `start_pomodoro`, `start_short_rest`, `start_long_rest`, with `kind` the state they enter. */
  function StartInterval(s: Session, kind: State, now: Timestamp): (r: Session)
    requires kind != IDLE
    ensures r.state == kind
    ensures r.log == s.log + Interrupted(s.state, now)
    ensures r.timer == Timers.StartSpec(s.timer, Minutes(kind) * 60, StopTimerCallback)
    ensures Timers.SingleSlot(s.timer) ==> Inv(r)
    ensures Timers.SingleSlot(s.timer) ==> r.timer.loop.sources == map[r.timer.id.value := Armed(kind)]
  {
    var log' := if s.state != IDLE then s.log + [EventRecord(s.state, false, now)] else s.log;
    Session(kind, Timers.StartSpec(s.timer, Minutes(kind) * 60, StopTimerCallback), log')
  }

  /**
   * `stop_timer(source)`. Without a source it is the timer running out, and
   * the current state is logged as completed, whatever it is. With a source
   * it is the menu's Stop, and the state is logged as interrupted unless it
   * is IDLE. Either way the controller ends IDLE with the timer stopped.
   */
  function StopTimerSpec(s: Session, source: Option<MenuItem>, now: Timestamp): (r: Session)
    ensures r.state == IDLE && r.timer.id == None
    ensures source.None? ==> r.log == s.log + [EventRecord(s.state, true, now)]
    ensures source.Some? ==> r.log == s.log + Interrupted(s.state, now)
    ensures Timers.SingleSlot(s.timer) ==> Inv(r) && r.timer.loop.sources == map[]
  {
    var log' :=
      if source.None? then s.log + [EventRecord(s.state, true, now)]
      else if s.state != IDLE then s.log + [EventRecord(s.state, false, now)]
      else s.log;
    Session(IDLE, Timers.StopSpec(s.timer), log')
  }

  /** `quit`: log a running interval as interrupted; the state and the timer stay as they are. */
  function QuitSpec(s: Session, now: Timestamp): (r: Session)
    ensures r.state == s.state && r.timer == s.timer
    ensures r.log == s.log + Interrupted(s.state, now)
    ensures Inv(s) ==> Inv(r)
  {
    if s.state != IDLE then s.(log := s.log + [EventRecord(s.state, false, now)]) else s
  }

  /**
   * The main loop dispatches source `sid`. If it is the pending one, the
   * timer's wrapper calls `stop_timer()` with no source, which logs the
   * interval as completed. Any other id is not pending and nothing happens.
   */
  function DispatchSpec(s: Session, sid: nat, now: Timestamp): (r: Session)
    ensures Inv(s) ==> Inv(r)
    ensures Inv(s) && sid in s.timer.loop.sources ==>
              s.state != IDLE && r.state == IDLE && r.log == s.log + [EventRecord(s.state, true, now)]
    ensures sid !in s.timer.loop.sources ==> r == s
  {
    var (timer', ran) := Timers.FireSpec(s.timer, sid, false);
    match ran
    case Some(StopTimerCallback) => StopTimerSpec(s.(timer := timer'), None, now)
    case None => s
  }

  /** What can happen to the controller: the menu's five actions and the timer running out. */
  datatype Action =
    | StartPomodoro(now: Timestamp)
    | StartShortRest(now: Timestamp)
    | StartLongRest(now: Timestamp)
    | MenuStop(now: Timestamp)
    | Dispatch(sid: nat, now: Timestamp)
    | Quit(now: Timestamp)

  /** One action. Only the timer running out can log an interval as completed. */
  function Step(s: Session, a: Action): (r: Session)
    ensures Inv(s) ==> Inv(r)
    ensures |s.log| <= |r.log| <= |s.log| + 1 && s.log <= r.log
    ensures Inv(s) ==> forall i :: |s.log| <= i < |r.log| ==> r.log[i].operation != IDLE
    ensures forall i :: |s.log| <= i < |r.log| && r.log[i].completed ==> a.Dispatch?
  {
    match a
    case StartPomodoro(now) => StartInterval(s, POMODORO, now)
    case StartShortRest(now) => StartInterval(s, SHORT_REST, now)
    case StartLongRest(now) => StartInterval(s, LONG_REST, now)
    case MenuStop(now) => StopTimerSpec(s, Some(StopItem), now)
    case Dispatch(sid, now) => DispatchSpec(s, sid, now)
    case Quit(now) => QuitSpec(s, now)
  }

  /** A run of actions. `quit` ends the main loop, so nothing after the first Quit happens. */
  function Run(s: Session, actions: seq<Action>): Session
    decreases |actions|
  {
    if actions == [] then s
    else if actions[0].Quit? then Step(s, actions[0])
    else Run(Step(s, actions[0]), actions[1..])
  }

  /** The run reaches a Quit. */
  predicate Quits(actions: seq<Action>)
  {
    exists i :: 0 <= i < |actions| && actions[i].Quit?
  }

  /** The intervals a run starts before it quits. */
  function Started(actions: seq<Action>): nat
    decreases |actions|
  {
    if actions == [] || actions[0].Quit? then 0
    else
      var a := actions[0];
      (if a.StartPomodoro? || a.StartShortRest? || a.StartLongRest? then 1 else 0) + Started(actions[1..])
  }

  /** One interval is in progress, or none. */
  function Open(s: Session): nat
  {
    if s.state != IDLE then 1 else 0
  }

  /**
   * Every interval started yields exactly one record: over any run, the rows
   * appended plus the interval still running (none after a quit) equal the
   * interval running at the start plus the intervals started. The log only
   * grows, no appended row names IDLE, and the invariant holds throughout.
   */
  lemma {:induction false} OneRecordPerInterval(s: Session, actions: seq<Action>)
    requires Inv(s)
    ensures Inv(Run(s, actions)) && s.log <= Run(s, actions).log
    ensures forall i :: |s.log| <= i < |Run(s, actions).log| ==> Run(s, actions).log[i].operation != IDLE
    ensures |Run(s, actions).log| - |s.log| + (if Quits(actions) then 0 else Open(Run(s, actions)))
            == Open(s) + Started(actions)
    decreases |actions|
  {
    if actions != [] {
      var a := actions[0];
      var s1 := Step(s, a);
      if a.Quit? {
        assert Quits(actions) by { assert actions[0].Quit?; }
      } else {
        var rest := actions[1..];
        OneRecordPerInterval(s1, rest);
        assert Quits(actions) <==> Quits(rest) by {
          if Quits(actions) {
            var j :| 0 <= j < |actions| && actions[j].Quit?;
            assert j != 0 && rest[j - 1] == actions[j];
          }
          if Quits(rest) {
            var j :| 0 <= j < |rest| && rest[j].Quit?;
            assert actions[j + 1] == rest[j];
          }
        }
        var r := Run(s1, rest);
        assert r == Run(s, actions);
        assert forall i :: |s.log| <= i < |r.log| ==> r.log[i].operation != IDLE by {
          forall i | |s.log| <= i < |r.log| ensures r.log[i].operation != IDLE {
            if i < |s1.log| {
              assert r.log[i] == s1.log[i];
            }
          }
        }
      }
    }
  }

  /** Switching intervals logs the one being left as interrupted and arms a fresh timer for the new one. */
  lemma SwitchLogsInterrupted(s: Session, kind: State, now: Timestamp)
    requires Inv(s) && s.state != IDLE && kind != IDLE
    ensures StartInterval(s, kind, now).log == s.log + [EventRecord(s.state, false, now)]
    ensures s.timer.id.value !in StartInterval(s, kind, now).timer.loop.sources
  {
  }

  /** Stopping from the menu while IDLE logs nothing. */
  lemma NoIdleDoubleLog(s: Session, now: Timestamp)
    requires Inv(s) && s.state == IDLE
    ensures StopTimerSpec(s, Some(StopItem), now).log == s.log
    ensures StopTimerSpec(s, Some(StopItem), now) == s
  {
  }

  /**
   * A long rest is an interval of its own: it enters LONG_REST, not
   * SHORT_REST, arms 15 minutes instead of 5, and a later interruption logs
   * it under its own code.
   */
  lemma LongRestIsItsOwnInterval(s: Session, now: Timestamp, later: Timestamp)
    requires Inv(s)
    ensures StartInterval(s, LONG_REST, now).state != StartInterval(s, SHORT_REST, now).state
    ensures var r := StartInterval(s, LONG_REST, now);
            r.timer.loop.sources[r.timer.id.value].interval == 15 * 60
            && StopTimerSpec(r, Some(StopItem), later).log == r.log + [EventRecord(LONG_REST, false, later)]
  {
  }

  /** The controller object. */
  class Tomatinho {
    var state: State
    const recorder: EventRecorder<int>
    const timer: Timers.StateTimer<Callback>

    /** The collaborators are in working order: the timer keeps one slot and the table exists. */
    ghost predicate Ready()
      reads this, timer, timer.loop, recorder.db
    {
      timer.Valid() && recorder.Valid()
    }

    ghost function View(): Session
      reads this, timer, timer.loop, recorder.db
      requires Ready()
    {
      Session(state, timer.View(), recorder.db.table.value)
    }

    ghost predicate Valid()
      reads this, timer, timer.loop, recorder.db
    {
      Ready() && Inv(View())
    }

    /** Opens the event log on `disk`, starts IDLE with a fresh timer. */
    constructor (disk: Database<int>)
      modifies disk
      ensures Valid() && recorder.db == disk && fresh(timer) && fresh(timer.loop)
      ensures View() == Initial(Connect(old(disk.View())).table.value)
    {
      state := IDLE;
      recorder := new EventRecorder(disk);
      timer := new Timers.StateTimer();
    }

    method StartPomodoro(now: Timestamp)
      requires Valid()
      modifies this, timer, timer.loop, recorder.db
      ensures Valid()
      ensures View() == StartInterval(old(View()), POMODORO, now)
    {
      if state != IDLE {
        recorder.Record(state, false, now);
      }
      state := POMODORO;
      timer.Start(POMODORO_MINUTES * 60, StopTimerCallback);
    }

    method StartShortRest(now: Timestamp)
      requires Valid()
      modifies this, timer, timer.loop, recorder.db
      ensures Valid()
      ensures View() == StartInterval(old(View()), SHORT_REST, now)
    {
      if state != IDLE {
        recorder.Record(state, false, now);
      }
      state := SHORT_REST;
      timer.Start(SHORT_REST_MINUTES * 60, StopTimerCallback);
    }

    method StartLongRest(now: Timestamp)
      requires Valid()
      modifies this, timer, timer.loop, recorder.db
      ensures Valid()
      ensures View() == StartInterval(old(View()), LONG_REST, now)
    {
      if state != IDLE {
        recorder.Record(state, false, now);
      }
      state := LONG_REST;
      timer.Start(LONG_REST_MINUTES * 60, StopTimerCallback);
    }

    /** `source` is None when the timer calls this, and the Stop menu item when the user does. */
    method StopTimer(source: Option<MenuItem>, now: Timestamp)
      requires Ready()
      modifies this, timer, timer.loop, recorder.db
      ensures Valid()
      ensures View() == StopTimerSpec(old(View()), source, now)
    {
      if source.None? {
        recorder.Record(state, true, now);
      } else if state != IDLE {
        recorder.Record(state, false, now);
      }
      state := IDLE;
      timer.Stop();
    }

    method Quit(now: Timestamp)
      requires Valid()
      modifies recorder.db
      ensures Valid()
      ensures View() == QuitSpec(old(View()), now)
    {
      if state != IDLE {
        recorder.Record(state, false, now);
      }
    }

    /** The main loop dispatches source `sid`; the timer's wrapper runs `stop_timer()` if it was pending. */
    method Dispatch(sid: nat, now: Timestamp)
      requires Valid()
      modifies this, timer, timer.loop, recorder.db
      ensures Valid()
      ensures View() == DispatchSpec(old(View()), sid, now)
    {
      var ran := timer.Fire(sid, false);
      match ran
      case Some(StopTimerCallback) =>
        StopTimer(None, now);
      case None =>
    }
  }
}
