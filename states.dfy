/**
 * The application state codes of the current controller. They are plain
 * integers, and they are the values written to the `operation` column of
 * the `statistics` table, so they are a persisted format.
 */
module States {

  const IDLE: int := 1
  const POMODORO: int := 2
  const SHORT_REST: int := 3
  const LONG_REST: int := 4

  /** A controller state is one of the four codes. */
  type State = c: int | IDLE <= c <= LONG_REST witness IDLE

  /** Every state except IDLE is an interval that has a timer and gets a log record. */
  predicate IsInterval(s: State)
  {
    s != IDLE
  }

  /** The four codes are pairwise distinct. */
  lemma CodesDistinct()
    ensures IDLE != POMODORO && IDLE != SHORT_REST && IDLE != LONG_REST
    ensures POMODORO != SHORT_REST && POMODORO != LONG_REST && SHORT_REST != LONG_REST
  {
  }

  /** A state is one of the four codes, and IDLE is the only one that is not an interval. */
  lemma IdleIsTheOnlyNonInterval(s: State)
    ensures !IsInterval(s) <==> s == IDLE
    ensures IsInterval(s) <==> s == POMODORO || s == SHORT_REST || s == LONG_REST
  {
  }
}
