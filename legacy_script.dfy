/**
 * The oldest `Tomatinho`, the single `src/tomatinho.py` script. It creates
 * the table with an unguarded `CREATE TABLE` whose error it swallows, and
 * writes rows itself through `record_statistic` on the connection it holds.
 */
module LegacyScript {
  import opened Wrappers
  import opened Scheduling
  import opened Events
  import opened TickController

  /** `start_database`: make `~/.tomatinho` if missing, then try to create the table; "already exists" is ignored. */
  method StartDatabase(disk: Database<string>)
    modifies disk
    ensures disk.View() == Events.StartDatabase(old(disk.View()))
  {
    disk.MakeDirs();
    var outcome := disk.ExecuteCreate();
    match outcome
    case Pass =>
    case Fail(OperationalError) =>
  }

  class Tomatinho {
    var state: string
    var timerRunning: bool
    var timeLeft: int
    var countdownTimerId: Option<nat>
    const loop: Scheduler<Callback>
    const statisticsDb: Database<string>

    /** The loop issues fresh ids, the table exists, and the countdown fields match the loop. */
    ghost predicate Ready()
      reads this, loop, statisticsDb
    {
      loop.Valid() && statisticsDb.table.Some? && TimerWf(View())
    }

    ghost function View(): Session
      reads this, loop, statisticsDb
      requires statisticsDb.table.Some?
    {
      Session(state, timerRunning, timeLeft, countdownTimerId, loop.View(), statisticsDb.table.value)
    }

    ghost predicate Valid()
      reads this, loop, statisticsDb
    {
      Ready() && Inv(View())
    }

    /** Connects to the file that `start_database` prepared; it does not create the table itself. */
    constructor (disk: Database<string>)
      requires disk.table.Some?
      ensures Valid() && statisticsDb == disk && fresh(loop)
      ensures View() == Initial(disk.table.value)
    {
      state := IDLE_STATE;
      timerRunning := false;
      timeLeft := 0;
      countdownTimerId := None;
      loop := new Scheduler();
      statisticsDb := disk;
    }

    /** Insert one row `(operation, completed, now)` and commit. */
    method RecordStatistic(operation: string, completed: bool, now: Timestamp)
      requires statisticsDb.table.Some?
      modifies statisticsDb
      ensures statisticsDb.View() == Insert(old(statisticsDb.View()), operation, completed, now)
    {
      statisticsDb.ExecuteInsert(operation, completed, now);
    }

    method StartCountdownTimer(startTime: int)
      requires Ready()
      modifies this, loop
      ensures Ready()
      ensures View() == TickController.StartCountdownTimer(old(View()), startTime)
    {
      if timerRunning {
        loop.SourceRemove(countdownTimerId.value);
      }
      var id := loop.TimeoutAdd(TICK_MS, CountdownCallback);
      countdownTimerId := Some(id);
      timeLeft := startTime;
      timerRunning := true;
    }

    method StopCountdownTimer()
      requires Ready()
      modifies this, loop
      ensures Ready()
      ensures View() == TickController.StopCountdownTimer(old(View()))
    {
      if timerRunning {
        loop.SourceRemove(countdownTimerId.value);
        timerRunning := false;
      }
    }

    /** One tick; `repeat` is what the loop is told. */
    method Countdown(now: Timestamp) returns (repeat: bool)
      requires Ready()
      modifies this, loop, statisticsDb
      ensures Ready()
      ensures (View(), repeat) == CountdownSpec(old(View()), now)
    {
      timeLeft := timeLeft - 1;
      if timeLeft == 0 {
        RecordStatistic(state, true, now);
        state := IDLE_STATE;
        StopCountdownTimer();
        return false;
      }
      return true;
    }

    method StartPomodoro(now: Timestamp)
      requires Valid()
      modifies this, loop, statisticsDb
      ensures Valid()
      ensures View() == StartPomodoroSpec(old(View()), now)
    {
      if state != IDLE_STATE {
        RecordStatistic(state, false, now);
      }
      state := POMO_STATE;
      StartCountdownTimer(25 * 60);
    }

    method StartShortRest(now: Timestamp)
      requires Valid()
      modifies this, loop, statisticsDb
      ensures Valid()
      ensures View() == StartShortRestSpec(old(View()), now)
    {
      if state != IDLE_STATE {
        RecordStatistic(state, false, now);
      }
      state := REST_S_STATE;
      StartCountdownTimer(3 * 60);
    }

    /** As written: the short-rest state and countdown. */
    method StartLongRest(now: Timestamp)
      requires Valid()
      modifies this, loop, statisticsDb
      ensures Valid()
      ensures View() == StartLongRestSpec(old(View()), now)
    {
      if state != IDLE_STATE {
        RecordStatistic(state, false, now);
      }
      state := REST_S_STATE;
      StartCountdownTimer(3 * 60);
    }

    method StopTimer(now: Timestamp)
      requires Valid()
      modifies this, loop, statisticsDb
      ensures Valid()
      ensures View() == StopTimerSpec(old(View()), now)
    {
      if state != IDLE_STATE {
        RecordStatistic(state, false, now);
      }
      state := IDLE_STATE;
      StopCountdownTimer();
    }

    method Quit(now: Timestamp)
      requires Valid()
      modifies statisticsDb
      ensures Valid()
      ensures View() == QuitSpec(old(View()), now)
    {
      if state != IDLE_STATE {
        RecordStatistic(state, false, now);
      }
    }

    /** The main loop dispatches source `sid`: a pending source runs `countdown`, and is dropped when it answers False. */
    method Dispatch(sid: nat, now: Timestamp)
      requires Valid()
      modifies this, loop, statisticsDb
      ensures Valid()
      ensures View() == DispatchSpec(old(View()), sid, now)
    {
      if sid in loop.sources {
        var repeat := Countdown(now);
        if !repeat {
          loop.SourceRemove(sid);
        }
      }
    }
  }
}
