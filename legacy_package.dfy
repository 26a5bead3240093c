/**
 * The tick-based `Tomatinho` of the `src/tomatinho` package. It logs through
 * an `EventRecorder` that opens the SQLite file with a guarded create.
 */
module LegacyPackage {
  import opened Wrappers
  import opened Scheduling
  import opened Events
  import opened TickController

  class Tomatinho {
    var state: string
    var timerRunning: bool
    var timeLeft: int
    var countdownTimerId: Option<nat>
    const loop: Scheduler<Callback>
    const recorder: EventRecorder<string>

    /** The loop issues fresh ids, the table exists, and the countdown fields match the loop. */
    ghost predicate Ready()
      reads this, loop, recorder.db
    {
      loop.Valid() && recorder.Valid() && TimerWf(View())
    }

    ghost function View(): Session
      reads this, loop, recorder.db
      requires recorder.Valid()
    {
      Session(state, timerRunning, timeLeft, countdownTimerId, loop.View(), recorder.db.table.value)
    }

    ghost predicate Valid()
      reads this, loop, recorder.db
    {
      Ready() && Inv(View())
    }

    constructor (disk: Database<string>)
      modifies disk
      ensures Valid() && recorder.db == disk && fresh(loop)
      ensures View() == Initial(Connect(old(disk.View())).table.value)
    {
      state := IDLE_STATE;
      timerRunning := false;
      timeLeft := 0;
      countdownTimerId := None;
      loop := new Scheduler();
      recorder := new EventRecorder(disk);
    }

    method StartCountdownTimer(startTime: int)
      requires Ready()
      modifies this, loop
      ensures Ready()
      ensures View() == TickController.StartCountdownTimer(old(View()), startTime)
    {
      if timerRunning {
        loop.SourceRemove(countdownTimerId.value);
      }
      var id := loop.TimeoutAdd(TICK_MS, CountdownCallback);
      countdownTimerId := Some(id);
      timeLeft := startTime;
      timerRunning := true;
    }

    method StopCountdownTimer()
      requires Ready()
      modifies this, loop
      ensures Ready()
      ensures View() == TickController.StopCountdownTimer(old(View()))
    {
      if timerRunning {
        loop.SourceRemove(countdownTimerId.value);
        timerRunning := false;
      }
    }

    /** One tick; `repeat` is what the loop is told. */
    method Countdown(now: Timestamp) returns (repeat: bool)
      requires Ready()
      modifies this, loop, recorder.db
      ensures Ready()
      ensures (View(), repeat) == CountdownSpec(old(View()), now)
    {
      timeLeft := timeLeft - 1;
      if timeLeft == 0 {
        recorder.Record(state, true, now);
        state := IDLE_STATE;
        StopCountdownTimer();
        return false;
      }
      return true;
    }

    method StartPomodoro(now: Timestamp)
      requires Valid()
      modifies this, loop, recorder.db
      ensures Valid()
      ensures View() == StartPomodoroSpec(old(View()), now)
    {
      if state != IDLE_STATE {
        recorder.Record(state, false, now);
      }
      state := POMO_STATE;
      StartCountdownTimer(25 * 60);
    }

    method StartShortRest(now: Timestamp)
      requires Valid()
      modifies this, loop, recorder.db
      ensures Valid()
      ensures View() == StartShortRestSpec(old(View()), now)
    {
      if state != IDLE_STATE {
        recorder.Record(state, false, now);
      }
      state := REST_S_STATE;
      StartCountdownTimer(3 * 60);
    }

    /** As written: the short-rest state and countdown. */
    method StartLongRest(now: Timestamp)
      requires Valid()
      modifies this, loop, recorder.db
      ensures Valid()
      ensures View() == StartLongRestSpec(old(View()), now)
    {
      if state != IDLE_STATE {
        recorder.Record(state, false, now);
      }
      state := REST_S_STATE;
      StartCountdownTimer(3 * 60);
    }

    method StopTimer(now: Timestamp)
      requires Valid()
      modifies this, loop, recorder.db
      ensures Valid()
      ensures View() == StopTimerSpec(old(View()), now)
    {
      if state != IDLE_STATE {
        recorder.Record(state, false, now);
      }
      state := IDLE_STATE;
      StopCountdownTimer();
    }

    method Quit(now: Timestamp)
      requires Valid()
      modifies recorder.db
      ensures Valid()
      ensures View() == QuitSpec(old(View()), now)
    {
      if state != IDLE_STATE {
        recorder.Record(state, false, now);
      }
    }

    /** The main loop dispatches source `sid`: a pending source runs `countdown`, and is dropped when it answers False. */
    method Dispatch(sid: nat, now: Timestamp)
      requires Valid()
      modifies this, loop, recorder.db
      ensures Valid()
      ensures View() == DispatchSpec(old(View()), sid, now)
    {
      if sid in loop.sources {
        var repeat := Countdown(now);
        if !repeat {
          loop.SourceRemove(sid);
        }
      }
    }
  }
}
