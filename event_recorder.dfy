/**
 * The event log: the `statistics` table of the application's SQLite file,
 * with rows `(operation, completed, datetime)`. The file and the user
 * directory outlive a process, so they are a `Database` object that each
 * run opens again. Every statement is committed before its call returns.
 */
module Events {
  import opened Wrappers

  /** A moment as read from the clock; the clock itself is a parameter. */
  type Timestamp = int

  /** One row of `statistics`: the interval that ended, whether it ran out, and when. */
  datatype EventRecord<Op> = EventRecord(operation: Op, completed: bool, datetime: Timestamp)

  /** What is on disk: whether the user directory exists, and the table if it was created. */
  datatype Store<Op> = Store(userDir: bool, table: Option<seq<EventRecord<Op>>>)

  /** SQLite's error for `CREATE TABLE` over an existing table. */
  datatype DbError = OperationalError

  /** Create the user directory if it is absent. */
  function WithUserDir<Op>(s: Store<Op>): (r: Store<Op>)
    ensures r.userDir && r.table == s.table
  {
    if !s.userDir then s.(userDir := true) else s
  }

  /** `CREATE TABLE IF NOT EXISTS statistics (...)`. */
  function CreateTableIfNotExists<Op>(s: Store<Op>): (r: Store<Op>)
    ensures r.userDir == s.userDir && r.table.Some?
    ensures s.table.Some? ==> r.table == s.table
    ensures s.table.None? ==> r.table.value == []
  {
    if s.table.None? then s.(table := Some([])) else s
  }

  /** `CREATE TABLE statistics (...)` without the guard: it fails when the table exists. */
  function CreateTable<Op>(s: Store<Op>): (r: (Store<Op>, Outcome<DbError>))
    ensures r.1.Fail? <==> s.table.Some?
    ensures r.1.Fail? ==> r.0 == s
    ensures r.1.Pass? ==> r.0 == s.(table := Some([]))
  {
    if s.table.Some? then (s, Fail(OperationalError)) else (s.(table := Some([])), Pass)
  }

  /** Opening the event log: make the directory, then create the table if it is missing. */
  function Connect<Op>(s: Store<Op>): (r: Store<Op>)
    ensures r.userDir && r.table.Some?
    ensures s.table.Some? ==> r.table == s.table
    ensures s.table.None? ==> r.table.value == []
  {
    CreateTableIfNotExists(WithUserDir(s))
  }

  /** The oldest script's `start_database`: make the directory, try to create the table, swallow the error. */
  function StartDatabase<Op>(s: Store<Op>): (r: Store<Op>)
    ensures r.userDir && r.table.Some?
    ensures s.table.Some? ==> r.table == s.table
  {
    var (created, outcome) := CreateTable(WithUserDir(s));
    match outcome
    case Pass => created
    case Fail(OperationalError) => created
  }

  /** `INSERT INTO statistics VALUES (?, ?, ?)`. */
  function Insert<Op>(s: Store<Op>, op: Op, completed: bool, now: Timestamp): (r: Store<Op>)
    requires s.table.Some?
    ensures r.userDir == s.userDir && r.table.Some?
    ensures |r.table.value| == |s.table.value| + 1
    ensures s.table.value <= r.table.value
    ensures r.table.value[|s.table.value|] == EventRecord(op, completed, now)
  {
    s.(table := Some(s.table.value + [EventRecord(op, completed, now)]))
  }

  /** Opening the log again changes nothing, and an existing table keeps its rows. */
  lemma ConnectIdempotent<Op>(s: Store<Op>)
    ensures Connect(Connect(s)) == Connect(s)
    ensures s.table.Some? ==> Connect(s).table == s.table
  {
  }

  /** The unguarded create with its error swallowed ends where the guarded create does. */
  lemma StartDatabaseAgreesWithConnect<Op>(s: Store<Op>)
    ensures StartDatabase(s) == Connect(s)
  {
  }

  /** A series of `record` calls, one row each. */
  function InsertAll<Op>(s: Store<Op>, rows: seq<EventRecord<Op>>): (r: Store<Op>)
    requires s.table.Some?
    ensures r.table.Some? && r.userDir == s.userDir
    decreases |rows|
  {
    if rows == [] then s
    else InsertAll(Insert(s, rows[0].operation, rows[0].completed, rows[0].datetime), rows[1..])
  }

  /** The log is append-only: a series of records adds exactly those rows, in call order, after the old ones. */
  lemma {:induction false} RecordsAppendInOrder<Op>(s: Store<Op>, rows: seq<EventRecord<Op>>)
    requires s.table.Some?
    ensures InsertAll(s, rows).table.value == s.table.value + rows
    decreases |rows|
  {
    if rows != [] {
      var s1 := Insert(s, rows[0].operation, rows[0].completed, rows[0].datetime);
      RecordsAppendInOrder(s1, rows[1..]);
      assert s1.table.value == s.table.value + [rows[0]];
      assert [rows[0]] + rows[1..] == rows;
    }
  }

  /** The SQLite file, updated in place. */
  class Database<Op> {
    var userDir: bool
    var table: Option<seq<EventRecord<Op>>>

    ghost function View(): Store<Op>
      reads this
    {
      Store(userDir, table)
    }

    /** The file as an earlier run left it. */
    constructor (s: Store<Op>)
      ensures View() == s
    {
      userDir := s.userDir;
      table := s.table;
    }

    method MakeDirs()
      modifies this
      ensures View() == WithUserDir(old(View()))
    {
      if !userDir {
        userDir := true;
      }
    }

    method ExecuteCreateIfNotExists()
      modifies this
      ensures View() == CreateTableIfNotExists(old(View()))
    {
      if table.None? {
        table := Some([]);
      }
    }

    method ExecuteCreate() returns (outcome: Outcome<DbError>)
      modifies this
      ensures (View(), outcome) == CreateTable(old(View()))
    {
      if table.Some? {
        outcome := Fail(OperationalError);
      } else {
        table := Some([]);
        outcome := Pass;
      }
    }

    method ExecuteInsert(op: Op, completed: bool, now: Timestamp)
      requires table.Some?
      modifies this
      ensures View() == Insert(old(View()), op, completed, now)
    {
      table := Some(table.value + [EventRecord(op, completed, now)]);
    }
  }

  /** `EventRecorder`: holds the connection opened at construction. */
  class EventRecorder<Op> {
    const db: Database<Op>

    ghost predicate Valid()
      reads db
    {
      db.table.Some?
    }

    constructor (disk: Database<Op>)
      modifies disk
      ensures db == disk && Valid()
      ensures disk.View() == Connect(old(disk.View()))
    {
      var conn := GetDbConnection(disk);
      db := conn;
    }

    /** Make the user directory if needed, open the file and create the table if it is absent. */
    static method GetDbConnection(disk: Database<Op>) returns (conn: Database<Op>)
      modifies disk
      ensures conn == disk
      ensures disk.View() == Connect(old(disk.View()))
    {
      disk.MakeDirs();
      disk.ExecuteCreateIfNotExists();
      conn := disk;
    }

    /** Append one row `(op, completed, now)`; `now` is the clock at the call. */
    method Record(op: Op, completed: bool, now: Timestamp)
      requires Valid()
      modifies db
      ensures Valid()
      ensures db.View() == Insert(old(db.View()), op, completed, now)
    {
      db.ExecuteInsert(op, completed, now);
    }
  }
}
