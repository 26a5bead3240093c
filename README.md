# Tomatinho session controller in Dafny

Tomatinho is a Pomodoro tray timer. This project models its core, which is the
session controller. The controller is a four-state machine: IDLE, POMODORO,
SHORT_REST and LONG_REST. It drives two collaborators:

- a single-slot state timer over the GLib main loop;
- an append-only event log, the `statistics` table of a SQLite file.

The project models three versions of the controller:

- **Current** (`tomatinho/`). Each `start_*` action logs the interval it
  leaves as interrupted, switches state and re-arms the timer with
  `stop_timer` as its callback. `stop_timer()` with no source is the timer
  running out, and it logs the interval as completed. `stop_timer(source)`
  is the menu's Stop, and it logs the interval as interrupted unless the
  state is IDLE. `quit` logs a running interval as interrupted.
- **Older package** (`src/tomatinho/`) and **oldest script**
  (`src/tomatinho.py`). These have the same state machine over a 1-second
  tick. The tick decrements `time_left` and completes the interval at 0.
  Their states are the Portuguese state names.

Files and modules:

- `wrappers.dfy` (`Wrappers`): `Option`, `Outcome`.
- `states.dfy` (`States`): the persisted state codes 1 to 4.
- `scheduling.dfy` (`Scheduling`): the GLib main context, reduced to a table
  of pending timeout sources. `timeout_add` registers a source and
  `source_remove` drops one. A source fires only when its owner takes an
  explicit dispatch step.
- `state_timer.dfy` (`Timers`): `StateTimer`. It has pure step functions on
  `TimerView`, lemmas about runs of events, and the class proved against
  the step functions.
- `event_recorder.dfy` (`Events`): the SQLite file as a `Database` object,
  and `EventRecorder`. Both `tomatinho/event_recorder.py` and
  `src/tomatinho/event_recorder.py` have the same behaviour. The one
  generic class models both: its operation type is `int` for the current
  codes and `string` for the older state names.
- `tomatinho.dfy` (`Controller`): the current controller. It has the
  `Session` value, the step functions and the run lemmas, and the class
  `Tomatinho`.
- `tick_controller.dfy` (`TickController`): the logic the two tick-based
  versions share, as functions and lemmas.
- `legacy_package.dfy` (`LegacyPackage`) and `legacy_script.dfy`
  (`LegacyScript`): the two tick-based `Tomatinho` classes, proved against
  `TickController`.

Every class method is specified by `View() == Step(old(View()), ...)`, where
`Step` is a function of the same module. The properties are proved about
those functions. Each controller spec also has an `Action` type and a `Run`
function over sequences of actions. `Run` stops at the first Quit, because
`Gtk.main_quit` ends the loop.

Some behaviour of the code is kept exactly as written:

- The older `start_long_rest` is modelled as written (see Findings).
- The current timer checks no duration and shows no remaining time per tick.
  The model adds neither.
- The current `stop_timer` tells the timer running out from the menu's Stop
  only by its `source` argument. The model keeps that argument as
  `Option<MenuItem>`.

## Model

| member | source | states |
|---|---|---|
| `States.CodesDistinct` | tomatinho/states.py:7-10 | IDLE, POMODORO, SHORT_REST and LONG_REST are pairwise distinct codes |
| `States.IdleIsTheOnlyNonInterval` | tomatinho/states.py:7-10 | a state is one of the four codes, and IDLE is the only one that is not an interval |
| `Scheduling.Add` | tomatinho/state_timer.py:34 | `timeout_add` registers the source under a fresh id and leaves the other pending sources unchanged |
| `Scheduling.Remove` | tomatinho/state_timer.py:31-32 | `source_remove` drops exactly that source, and removing an id that is not pending is a no-op |
| `Scheduling.Scheduler.TimeoutAdd` | tomatinho/state_timer.py:34 | the in-place loop registers a source as `Add` says and keeps ids fresh |
| `Scheduling.Scheduler.SourceRemove` | tomatinho/state_timer.py:39 | the in-place loop drops a source as `Remove` says |
| `Timers.Fresh` | tomatinho/state_timer.py:9-11 | a new timer has an empty `_id` slot and no pending source |
| `Timers.OnceWrapper` | tomatinho/state_timer.py:22-29 | whatever the callback returns, the wrapper tells the loop not to repeat |
| `Timers.StartSpec` | tomatinho/state_timer.py:31-34 | start cancels the source the slot names, then registers a new one under a new id; afterwards the single pending source is the new one, with the given duration and callback |
| `Timers.StopSpec` | tomatinho/state_timer.py:36-40 | stop removes the pending source and empties the slot; with an empty slot it is a no-op |
| `Timers.FireSpec` | tomatinho/state_timer.py:22-29 | dispatching a pending source runs its callback once and drops the source; a source that is not pending runs nothing; firing does not clear `_id` |
| `Timers.Apply` | tomatinho/state_timer.py:13-40 | one event runs at most one callback and keeps at most one source pending |
| `Timers.Run` | tomatinho/state_timer.py:13-40 | over any run of starts, stops and dispatches, at most one source is pending, the one the slot names |
| `Timers.NothingPendingNothingRuns` | tomatinho/state_timer.py:36-40 | with nothing pending, no run of stops and dispatches invokes a callback |
| `Timers.PendingRunsAtMostOnce` | tomatinho/state_timer.py:22-34 | dispatches alone run the pending callback exactly once if its source is dispatched, otherwise never |
| `Timers.StartRunsCallbackOnce` | test/test_state_timer.py:26-34 | start followed by dispatches runs the callback exactly once if its source is dispatched, never twice |
| `Timers.RestartCancelsPrevious` | test/test_state_timer.py:36-48 | after two starts the first source is gone, and only the second callback can run, at most once |
| `Timers.StopPreventsCallback` | test/test_state_timer.py:50-62 | after start and stop, no number of further stops and dispatches runs the callback |
| `Timers.StateTimer.constructor` | tomatinho/state_timer.py:9-11 | a new timer's view is `Fresh()` |
| `Timers.StateTimer.Start` | tomatinho/state_timer.py:13-34 | the object's new view is `StartSpec` of the old one, and the single-slot invariant holds |
| `Timers.StateTimer.Stop` | tomatinho/state_timer.py:36-40 | the object's new view is `StopSpec` of the old one |
| `Timers.StateTimer.Fire` | tomatinho/state_timer.py:22-29 | the loop's dispatch of a source, as `FireSpec` says, returning the callback that ran |
| `Events.WithUserDir` | tomatinho/event_recorder.py:29-30 | afterwards the user directory exists, and the table is untouched |
| `Events.CreateTableIfNotExists` | tomatinho/event_recorder.py:13-19 | afterwards the table exists; an existing table keeps all its rows, and a new one is empty |
| `Events.CreateTable` | src/tomatinho.py:32-35 | the unguarded create fails with OperationalError exactly when the table exists, and then changes nothing |
| `Events.Connect` | tomatinho/event_recorder.py:24-35 | opening the log leaves the directory and the table in place; existing rows are unchanged |
| `Events.StartDatabase` | src/tomatinho.py:24-41 | the oldest start-up makes the directory and the table, and an existing table is left as it was |
| `Events.Insert` | tomatinho/event_recorder.py:45-49 | one row more; earlier rows are a prefix, and the new row is `(op, completed, now)` |
| `Events.ConnectIdempotent` | src/tomatinho/event_recorder.py:15-35 | opening the log twice is the same as once, and an existing table keeps its rows |
| `Events.StartDatabaseAgreesWithConnect` | src/tomatinho.py:32-41 | the swallowed create error ends in the same store as the guarded create |
| `Events.RecordsAppendInOrder` | src/tomatinho/event_recorder.py:38-51 | a series of records appends exactly those rows, in call order, after the old ones |
| `Events.Database.constructor` | tomatinho/event_recorder.py:32 | the file as an earlier run left it |
| `Events.Database.MakeDirs` | tomatinho/event_recorder.py:29-30 | creates the user directory when it is absent |
| `Events.Database.ExecuteCreateIfNotExists` | tomatinho/event_recorder.py:33-34 | runs the guarded create |
| `Events.Database.ExecuteCreate` | src/tomatinho.py:34-41 | runs the unguarded create and returns its outcome |
| `Events.Database.ExecuteInsert` | tomatinho/event_recorder.py:46-49 | runs the insert, as `Insert` says |
| `Events.EventRecorder.constructor` | tomatinho/event_recorder.py:21-22 | the recorder holds the connection, and the disk is `Connect` of what it was |
| `Events.EventRecorder.GetDbConnection` | tomatinho/event_recorder.py:24-35 | makes the directory if needed, creates the table if it is absent, and returns the connection |
| `Events.EventRecorder.Record` | tomatinho/event_recorder.py:37-49 | appends exactly one row `(op, completed, now)` and keeps the table present |
| `Controller.Initial` | tomatinho/tomatinho.py:28-31 | a new controller is IDLE, no timer is pending, and the invariant holds |
| `Controller.PendingIffNotIdle` | tomatinho/tomatinho.py:70-121 | under the invariant, a timer is pending exactly when the state is not IDLE |
| `Controller.StartInterval` | tomatinho/tomatinho.py:70-104 | a start enters its kind and appends `(previous, false)` only when the previous state was not IDLE; it arms `minutes*60` with `stop_timer` as the only pending source; the invariant holds afterwards |
| `Controller.StopTimerSpec` | tomatinho/tomatinho.py:106-124 | with no source it appends `(state, true)` unconditionally; with a source it appends `(state, false)` unless IDLE; it always ends IDLE with the timer stopped |
| `Controller.QuitSpec` | tomatinho/tomatinho.py:126-131 | quit appends `(state, false)` if and only if not IDLE, and it changes neither the state nor the timer |
| `Controller.DispatchSpec` | tomatinho/tomatinho.py:106-121 | dispatching the pending source appends `(state, true)` for a non-IDLE state and goes IDLE; any other id changes nothing |
| `Controller.Step` | tomatinho/tomatinho.py:70-131 | every action keeps the invariant and appends at most one row, which never names IDLE; only the timer running out appends `completed = true` |
| `Controller.OneRecordPerInterval` | tomatinho/tomatinho.py:70-131 | over any run, rows appended plus the interval still open equal the interval open at the start plus the intervals started; the log only grows |
| `Controller.SwitchLogsInterrupted` | tomatinho/tomatinho.py:70-104 | switching from a running interval logs it as interrupted and cancels its source |
| `Controller.NoIdleDoubleLog` | tomatinho/tomatinho.py:115-121 | the menu's Stop while IDLE logs nothing and changes nothing |
| `Controller.LongRestIsItsOwnInterval` | tomatinho/tomatinho.py:94-104 | a long rest enters LONG_REST, not SHORT_REST, arms 15 minutes, and an interruption logs it as LONG_REST |
| `Controller.Tomatinho.constructor` | tomatinho/tomatinho.py:28-31 | the new object's view is `Initial` over the opened log |
| `Controller.Tomatinho.StartPomodoro` | tomatinho/tomatinho.py:70-80 | the new view is `StartInterval(old, POMODORO)`, and the invariant holds |
| `Controller.Tomatinho.StartShortRest` | tomatinho/tomatinho.py:82-92 | the new view is `StartInterval(old, SHORT_REST)`, and the invariant holds |
| `Controller.Tomatinho.StartLongRest` | tomatinho/tomatinho.py:94-104 | the new view is `StartInterval(old, LONG_REST)`, and the invariant holds |
| `Controller.Tomatinho.StopTimer` | tomatinho/tomatinho.py:106-124 | the new view is `StopTimerSpec(old, source)`, and the invariant holds afterwards |
| `Controller.Tomatinho.Quit` | tomatinho/tomatinho.py:126-131 | the new view is `QuitSpec(old)` |
| `Controller.Tomatinho.Dispatch` | tomatinho/state_timer.py:22-29 | the loop fires the timer, whose wrapper calls `stop_timer()`; the new view is `DispatchSpec(old)` |
| `TickController.Initial` | src/tomatinho/tomatinho.py:48-52 | IDLE, `timer_running` false, `time_left` 0, no timer id, nothing pending |
| `TickController.StartCountdownTimer` | src/tomatinho/tomatinho.py:76-85 | removes the old source only when running, registers a new 1-second source, and sets `time_left` and `timer_running` |
| `TickController.StopCountdownTimer` | src/tomatinho/tomatinho.py:87-90 | removes the source and clears `timer_running` only when running, otherwise a no-op; the id is kept |
| `TickController.CountdownSpec` | src/tomatinho/tomatinho.py:92-103 | a tick lowers `time_left` by 1 and returns true while it is nonzero; at 0 it appends `(state, true)`, goes IDLE, stops and returns false |
| `TickController.DispatchSpec` | src/tomatinho/tomatinho.py:81 | a pending source runs `countdown` and is dropped when it answers false; the invariant is kept |
| `TickController.StartSpec` | src/tomatinho/tomatinho.py:105-110 | a start appends `(state, false)` if and only if not IDLE, then enters the new state with the countdown running |
| `TickController.StartPomodoroSpec` | src/tomatinho/tomatinho.py:105-112 | enters `POMO_STATE` with 25*60 seconds |
| `TickController.StartShortRestSpec` | src/tomatinho/tomatinho.py:114-121 | enters `REST_S_STATE` with 3*60 seconds |
| `TickController.StartLongRestSpec` | src/tomatinho/tomatinho.py:123-130 | as written: enters `REST_S_STATE`, never `REST_L_STATE`, with 3*60 seconds |
| `TickController.StopTimerSpec` | src/tomatinho/tomatinho.py:132-139 | appends `(state, false)` only when not IDLE, then IDLE with the countdown stopped |
| `TickController.QuitSpec` | src/tomatinho/tomatinho.py:159-163 | appends `(state, false)` only when not IDLE; nothing else changes |
| `TickController.LongRestIsAShortRest` | src/tomatinho/tomatinho.py:123-130 | starting a long rest gives exactly the session a short rest gives |
| `TickController.Step` | src/tomatinho/tomatinho.py:92-163 | every action keeps the invariant; it appends at most one row, and that row names the running state |
| `TickController.Run` | src/tomatinho/tomatinho.py:92-163 | the invariant (countdown running iff not IDLE, with time left) holds after any run |
| `TickController.OneRecordPerInterval` | src/tomatinho/tomatinho.py:92-163 | one record per interval started; appended rows name `POMO_STATE` or `REST_S_STATE` only |
| `TickController.CompletesAfterExactlyNTicks` | src/tomatinho/tomatinho.py:92-103 | from `time_left = n > 0`, fewer than n ticks only lower `time_left`; the n-th appends `(state, true)` and leaves the controller IDLE and stopped |
| `LegacyPackage.Tomatinho.constructor` | src/tomatinho/tomatinho.py:48-54 | the new view is `Initial` over the opened log |
| `LegacyPackage.Tomatinho.StartCountdownTimer` | src/tomatinho/tomatinho.py:76-85 | the new view is `StartCountdownTimer(old)` |
| `LegacyPackage.Tomatinho.StopCountdownTimer` | src/tomatinho/tomatinho.py:87-90 | the new view is `StopCountdownTimer(old)` |
| `LegacyPackage.Tomatinho.Countdown` | src/tomatinho/tomatinho.py:92-103 | the new view and the result are `CountdownSpec(old)` |
| `LegacyPackage.Tomatinho.StartPomodoro` | src/tomatinho/tomatinho.py:105-112 | the new view is `StartPomodoroSpec(old)`, and the invariant holds |
| `LegacyPackage.Tomatinho.StartShortRest` | src/tomatinho/tomatinho.py:114-121 | the new view is `StartShortRestSpec(old)`, and the invariant holds |
| `LegacyPackage.Tomatinho.StartLongRest` | src/tomatinho/tomatinho.py:123-130 | the new view is `StartLongRestSpec(old)`, as written |
| `LegacyPackage.Tomatinho.StopTimer` | src/tomatinho/tomatinho.py:132-139 | the new view is `StopTimerSpec(old)` |
| `LegacyPackage.Tomatinho.Quit` | src/tomatinho/tomatinho.py:159-163 | the new view is `QuitSpec(old)` |
| `LegacyPackage.Tomatinho.Dispatch` | src/tomatinho/tomatinho.py:81 | the loop's dispatch of the countdown source, as `DispatchSpec` says |
| `LegacyScript.StartDatabase` | src/tomatinho.py:24-41 | the disk becomes `StartDatabase` of what it was; an existing table raises, the error is swallowed, and the table is untouched |
| `LegacyScript.Tomatinho.constructor` | src/tomatinho.py:62-80 | the new view is `Initial` over the table `start_database` prepared |
| `LegacyScript.Tomatinho.RecordStatistic` | src/tomatinho.py:170-176 | appends exactly one row `(operation, completed, now)` |
| `LegacyScript.Tomatinho.StartCountdownTimer` | src/tomatinho.py:102-111 | the new view is `StartCountdownTimer(old)` |
| `LegacyScript.Tomatinho.StopCountdownTimer` | src/tomatinho.py:113-116 | the new view is `StopCountdownTimer(old)` |
| `LegacyScript.Tomatinho.Countdown` | src/tomatinho.py:118-129 | the new view and the result are `CountdownSpec(old)` |
| `LegacyScript.Tomatinho.StartPomodoro` | src/tomatinho.py:131-138 | the new view is `StartPomodoroSpec(old)` |
| `LegacyScript.Tomatinho.StartShortRest` | src/tomatinho.py:140-147 | the new view is `StartShortRestSpec(old)` |
| `LegacyScript.Tomatinho.StartLongRest` | src/tomatinho.py:149-156 | the new view is `StartLongRestSpec(old)`, as written |
| `LegacyScript.Tomatinho.StopTimer` | src/tomatinho.py:158-165 | the new view is `StopTimerSpec(old)` |
| `LegacyScript.Tomatinho.Quit` | src/tomatinho.py:191-195 | the new view is `QuitSpec(old)` |
| `LegacyScript.Tomatinho.Dispatch` | src/tomatinho.py:107 | the loop's dispatch of the countdown source, as `DispatchSpec` says |

## Findings

| source | as written | input that shows it | evidently intended | confidence | as-written member | corrected member |
|---|---|---|---|---|---|---|
| src/tomatinho/tomatinho.py:123-130 | `start_long_rest` sets `REST_S_STATE` and a 3*60 countdown (the same at src/tomatinho.py:149-156) | any session `s` and time `t`: `StartLongRestSpec(s, t) == StartShortRestSpec(s, t)`. A long rest lasts 3 minutes and is logged as "Pausa Curta", although its icon and its notification say "Pausa Longa (15m)", and `REST_L_STATE` is defined but never entered | enter `REST_L_STATE` with a 15-minute countdown, as the current controller does with LONG_REST and 15*60 | high; not executed | `TickController.LongRestIsAShortRest` | `Controller.Tomatinho.StartLongRest` |

The older controllers are modelled as written. `TickController.OneRecordPerInterval`
also proves that no run of them ever logs `REST_L_STATE`. The current
controller is the corrected version. `Controller.LongRestIsItsOwnInterval`
proves the intended property about it.

## Left out

- Presentation: the indicator, its icons and labels, the menu, notifications
  and the About dialog. These calls are dropped from every action.
- Real time. A source fires only on an explicit dispatch step. Intervals are
  opaque numbers: the timer's docstring says milliseconds, but the controller
  passes minutes * 60.
- Dispatch order. In GLib, the wrapper runs the callback first. The
  callback's `stop()` calls `source_remove` on that id, which destroys the
  source. The wrapper then returns False, and the loop's drop of the source
  that is already gone is a no-op. In the model, `StateTimer.Fire` drops the
  source before its caller runs the callback. The callback's `Stop` then
  removes an id that is no longer pending, which is the no-op here. Both
  orders reach the same state.
- Other sources in the GLib default context. Each timer or controller owns
  its scheduler.
- SQLite transactions and failures. Every statement counts as committed when
  it runs. A failing `record` or connection is not modelled. Column types are
  not modelled either: the older controllers store their state strings in a
  column declared INTEGER, or TEXT in the oldest script.
- Paths. The user directory is a single flag, made on first use. The
  `appinfo` paths, the file name and the connection handle are not
  modelled.
- `Events.WithUserDir`, `Events.Database.MakeDirs`, `Events.Connect`,
  `Events.EventRecorder.constructor`, `Events.EventRecorder.GetDbConnection`,
  `LegacyPackage.Tomatinho.constructor`: the make-directory step always
  succeeds. It follows the recorder's docstring, which says the database file
  and table are created when absent. The code as written raises on these
  inputs:
  - The current recorder calls `appinfo.USER_DIR.makedir()`
    (tomatinho/event_recorder.py:30). `USER_DIR` is a `pathlib.Path`, which
    has `mkdir` but no `makedir`. A first run without `~/.tomatinho`
    therefore raises AttributeError.
  - The older package reads `appinfo.APP_DIR`
    (src/tomatinho/event_recorder.py:31), which its `appinfo` module does not
    define. So `EventRecorder()` always raises, and so does the older
    `Tomatinho()` that creates one (src/tomatinho/tomatinho.py:54).
- `LegacyScript.Tomatinho.constructor`: it requires the table to exist.
  `main` runs `start_database` first. Without it, every insert would raise,
  and that is not modelled.
- Timestamps are integers that the caller reads from the clock. They are not
  datetimes.
- `quit`'s `Gtk.main_quit`: `Run` processes nothing after the first Quit.
  The `main` entry points, SIGINT handling and `Gtk.main` are left out.
- `tomatinho/i18n.py`, `src/tomatinho/settings.py`, the `appinfo` and
  `locale` modules and `setup.py`: build scripts, settings UI and constants.
