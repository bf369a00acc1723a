/** The dual write of src/multi.rs interleaved with the migration loop of src/bin/migrate.rs.
    Each database is a map from unique id to event. */
module DualWriteModel {

  datatype Event = Event(id: int, contractId: string, eventType: string, ledger: int, data: string)

  /** Rows by their unique id. */
  type Table = t: map<int, Event> | forall id :: id in t ==> t[id].id == id
    witness map[]

  /** What becomes of a statement: it commits; it fails and changes nothing; or it commits and the
      acknowledgement is lost, so that the caller sees an error. */
  datatype Outcome = Committed | Failed | Unacknowledged

  /** INSERT: a duplicate id is an error. The second component says whether the caller sees Ok. */
  function Insert(t: Table, e: Event, outcome: Outcome): (Table, bool) {
    if e.id in t || outcome.Failed? then (t, false)
    else (t[e.id := e], outcome.Committed?)
  }

  /** INSERT ... ON CONFLICT (id) DO NOTHING: a duplicate id is skipped without an error. */
  function InsertOrSkip(t: Table, e: Event, outcome: Outcome): (Table, bool) {
    if outcome.Failed? then (t, false)
    else (if e.id in t then t else t[e.id := e], outcome.Committed?)
  }

  datatype Migration =
    | Idle
    | Copying(rows: seq<Event>, next: nat)
    | Completed(rows: seq<Event>)
    | Aborted

  /** pending: events whose SQLite write succeeded and whose Postgres write is still to come. */
  datatype System = System(sqlite: Table, postgres: Table, pending: set<Event>, migration: Migration)

  function Start(sqlite: Table, postgres: Table): System {
    System(sqlite, postgres, {}, Idle)
  }

  /** What fetch_all returns: every row once, in some order. */
  ghost predicate IsSnapshot(rows: seq<Event>, t: Table) {
    && (forall i :: 0 <= i < |rows| ==> rows[i].id in t && t[rows[i].id] == rows[i])
    && (forall id :: id in t ==> t[id] in rows)
    && (forall i, j :: 0 <= i < j < |rows| ==> rows[i].id != rows[j].id)
  }

  datatype Action =
    | SqliteWrite(event: Event, outcome: Outcome)
    | PostgresWrite(event: Event, outcome: Outcome)
    | AppCrash
    | MigrationStart(rows: seq<Event>)
    | MigrationCopy(outcome: Outcome)
    | MigrationFinish
    | MigrationCrash

  ghost predicate Enabled(s: System, a: Action) {
    match a
    case SqliteWrite(_, _) => true
    case PostgresWrite(e, _) => e in s.pending
    case AppCrash => true
    case MigrationStart(rows) => !s.migration.Copying? && IsSnapshot(rows, s.sqlite)
    case MigrationCopy(_) => s.migration.Copying? && s.migration.next < |s.migration.rows|
    case MigrationFinish => s.migration.Copying? && s.migration.next == |s.migration.rows|
    case MigrationCrash => s.migration.Copying?
  }

  function Ids(events: set<Event>): set<int> {
    set e | e in events :: e.id
  }

  function RowIds(rows: seq<Event>): set<int> {
    set e | e in rows :: e.id
  }

  function Step(s: System, a: Action): System
    requires Enabled(s, a)
  {
    match a
    case SqliteWrite(e, outcome) =>
      var (t, ok) := Insert(s.sqlite, e, outcome);
      s.(sqlite := t, pending := if ok then s.pending + {e} else s.pending)
    case PostgresWrite(e, outcome) =>
      s.(postgres := Insert(s.postgres, e, outcome).0, pending := s.pending - {e})
    case AppCrash => s.(pending := {})
    case MigrationStart(rows) => s.(migration := Copying(rows, 0))
    case MigrationCopy(outcome) =>
      var m := s.migration;
      var (p, ok) := InsertOrSkip(s.postgres, m.rows[m.next], outcome);
      s.(postgres := p, migration := if ok then Copying(m.rows, m.next + 1) else Aborted)
    case MigrationFinish => s.(migration := Completed(s.migration.rows))
    case MigrationCrash => s.(migration := Aborted)
  }

  ghost predicate ValidRun(s: System, actions: seq<Action>)
    decreases |actions|
  {
    actions != [] ==> Enabled(s, actions[0]) && ValidRun(Step(s, actions[0]), actions[1..])
  }

  function Run(s: System, actions: seq<Action>): System
    requires ValidRun(s, actions)
    decreases |actions|
  {
    if actions == [] then s else Run(Step(s, actions[0]), actions[1..])
  }

  ghost predicate SubTable(p: Table, t: Table) {
    forall id :: id in p ==> id in t && t[id] == p[id]
  }
}
