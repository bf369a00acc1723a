/** MultiDatabase and the migration loop over databases that are updated in place. How the databases
    end each statement, and what others do while a statement is awaited, are parameters. */
module DualWrite {
  import opened Wrappers
  import opened DualWriteModel
  import opened DualWriteRuns

  class Database {
    var rows: Table

    constructor (rows: Table)
      ensures this.rows == rows
    {
      this.rows := rows;
    }

    method StoreEvent(e: Event, outcome: Outcome) returns (ok: bool)
      modifies this
      ensures (rows, ok) == Insert(old(rows), e, outcome)
    {
      if e.id in rows || outcome == Failed {
        return false;
      }
      rows := rows[e.id := e];
      return outcome == Committed;
    }

    method InsertOnConflictDoNothing(e: Event, outcome: Outcome) returns (ok: bool)
      modifies this
      ensures (rows, ok) == InsertOrSkip(old(rows), e, outcome)
    {
      if outcome == Failed {
        return false;
      }
      if e.id !in rows {
        rows := rows[e.id := e];
      }
      return outcome == Committed;
    }

    /** fetch_optional: an error, or the row with this id if there is one. */
    method GetEvent(id: int, fails: bool) returns (r: Result<Option<Event>>)
      ensures r == if fails then Err else Ok(if id in rows then Some(rows[id]) else None)
    {
      if fails { return Err; }
      return Ok(if id in rows then Some(rows[id]) else None);
    }
  }

  class MultiDatabase {
    const sqlite: Database
    const postgres: Database

    constructor (sqlite: Database, postgres: Database)
      ensures this.sqlite == sqlite && this.postgres == postgres
    {
      this.sqlite, this.postgres := sqlite, postgres;
    }

    /** The databases hold the tables of a system; its other parts say which writes are under way. */
    ghost predicate Holds(s: System)
      reads sqlite, postgres
    {
      sqlite != postgres && sqlite.rows == s.sqlite && postgres.rows == s.postgres
    }

    /** What one action of another call or of the migration does to the databases. */
    method Perform(a: Action, s: System)
      requires Holds(s) && Enabled(s, a)
      modifies sqlite, postgres
      ensures Holds(Step(s, a))
    {
      match a
      case SqliteWrite(e, outcome) => var ok := sqlite.StoreEvent(e, outcome);
      case PostgresWrite(e, outcome) => var ok := postgres.StoreEvent(e, outcome);
      case MigrationCopy(outcome) =>
        var ok := postgres.InsertOnConflictDoNothing(s.migration.rows[s.migration.next], outcome);
      case _ =>
    }

    /** Others go on while a statement is awaited. */
    method Await(others: seq<Action>, s: System)
      requires Holds(s) && ValidRun(s, others)
      modifies sqlite, postgres
      ensures Holds(Run(s, others))
    {
      var now := s;
      assert others[0..] == others;
      for i := 0 to |others|
        invariant Holds(now) && ValidRun(now, others[i..])
        invariant Run(now, others[i..]) == Run(s, others)
      {
        assert others[i..][0] == others[i] && others[i..][1..] == others[i + 1..];
        Perform(others[i], now);
        now := Step(now, others[i]);
      }
    }

    /** The caller learns only what became of the SQLite write. Whatever others do between the two writes,
        the databases end as the run of all these actions leaves them. */
    method StoreEvent(e: Event, first: Outcome, others: seq<Action>, second: Outcome, s: System) returns (ok: bool)
      requires Holds(s) && BetweenWrites(s, e, first, others)
      modifies sqlite, postgres
      ensures ok == Insert(s.sqlite, e, first).1
      ensures ValidRun(s, StoreActions(s.sqlite, e, first, others, second))
      ensures Holds(Run(s, StoreActions(s.sqlite, e, first, others, second)))
    {
      StoreActionsRun(s, e, first, others, second);
      ok := sqlite.StoreEvent(e, first);
      if !ok {
        return;
      }
      Await(others, Step(s, SqliteWrite(e, first)));
      var mirrored := postgres.StoreEvent(e, second);
    }

    /** SQLite alone answers: Postgres is not asked even when the read fails. */
    method GetEvent(id: int, fails: bool) returns (r: Result<Option<Event>>)
      ensures r.Err? <==> fails
      ensures !fails ==> r.value == if id in sqlite.rows then Some(sqlite.rows[id]) else None
    {
      r := sqlite.GetEvent(id, fails);
    }
  }

  /** One turn of the loop: others act, then row i is inserted. */
  method CopyRow(rows: seq<Event>, i: nat, db: MultiDatabase, outcome: Outcome, others: seq<Action>, s: System)
    returns (ok: bool)
    requires db.Holds(s) && ValidRun(s, others) && LeaveMigration(others)
    requires i < |rows| && s.migration == Copying(rows, i)
    modifies db.sqlite, db.postgres
    ensures Run(s, others).migration == Copying(rows, i)
    ensures db.Holds(Step(Run(s, others), MigrationCopy(outcome)))
    ensures ok <==> outcome.Committed?
  {
    MigrationStays(s, others);
    db.Await(others, s);
    ok := db.postgres.InsertOnConflictDoNothing(rows[i], outcome);
  }

  /** The migration loop over a snapshot, which stops at the first error. Whatever others do before each
      insert, the databases end as the run of all these actions leaves them; if they do nothing, Postgres
      has been filled from the rows up to that error. */
  method Migrate(rows: seq<Event>, db: MultiDatabase, outcomes: seq<Outcome>, others: seq<seq<Action>>, s: System)
    returns (ok: bool)
    requires |outcomes| == |others| == |rows|
    requires db.Holds(s) && s.migration == Copying(rows, 0) && ValidRun(s, LoopActions(outcomes, others, 0))
    requires forall o <- others :: LeaveMigration(o)
    modifies db.sqlite, db.postgres
    ensures ok <==> AllCommitted(outcomes, 0)
    ensures db.Holds(Run(s, LoopActions(outcomes, others, 0)))
    ensures NoOthers(others) ==> db.postgres.rows == Fill(s.postgres, rows[..Reached(outcomes, 0)])
  {
    ghost var end := Run(s, LoopActions(outcomes, others, 0));
    if NoOthers(others) {
      LoopFromStart(s, rows, outcomes, others);
      assert end.postgres == Fill(s.postgres, rows[..Reached(outcomes, 0)]);
    }
    var now := s;
    for i := 0 to |rows|
      invariant db.Holds(now) && now.migration == Copying(rows, i)
      invariant LeadsTo(now, outcomes, others, i, end)
      invariant AllCommitted(outcomes, 0) <==> AllCommitted(outcomes, i)
    {
      LoopTurn(now, outcomes, others, i, end);
      ok := CopyRow(rows, i, db, outcomes[i], others[i], now);
      if !ok {
        return;
      }
      now := Step(Run(now, others[i]), MigrationCopy(outcomes[i]));
    }
    LoopDone(now, outcomes, others, end);
    return true;
  }
}
