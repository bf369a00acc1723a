module DualWriteTheorems {
  import opened DualWriteModel
  import D = DualWriteRuns

  /** The snapshot's rows are SQLite rows, and the first n of them are in Postgres. */
  ghost predicate Copied(s: System, rows: seq<Event>, n: nat) {
    && (forall i :: 0 <= i < |rows| ==> rows[i].id in s.sqlite && s.sqlite[rows[i].id] == rows[i])
    && (forall i :: 0 <= i < n && i < |rows| ==> rows[i].id in s.postgres)
  }

  ghost predicate Inv(s: System) {
    && SubTable(s.postgres, s.sqlite)
    && (forall e :: e in s.pending ==> e.id in s.sqlite && s.sqlite[e.id] == e)
    && (s.migration.Copying? ==>
          s.migration.next <= |s.migration.rows| && Copied(s, s.migration.rows, s.migration.next))
    && (s.migration.Completed? ==> Copied(s, s.migration.rows, |s.migration.rows|))
  }

  lemma InvStep(s: System, a: Action)
    requires Inv(s) && Enabled(s, a)
    ensures Inv(Step(s, a))
  {
  }

  lemma {:induction false} InvRun(s: System, actions: seq<Action>)
    requires Inv(s) && ValidRun(s, actions)
    ensures Inv(Run(s, actions))
    decreases |actions|
  {
    if actions != [] {
      InvStep(s, actions[0]);
      InvRun(Step(s, actions[0]), actions[1..]);
    }
  }

  /** Main result: if Postgres starts as a sub-map of SQLite it stays one, id and event, under every
      interleaving of dual writes, failures, crashes and migrations. */
  lemma PostgresStaysWithinSqlite(sqlite: Table, postgres: Table, actions: seq<Action>)
    requires SubTable(postgres, sqlite) && ValidRun(Start(sqlite, postgres), actions)
    ensures var s := Run(Start(sqlite, postgres), actions); SubTable(s.postgres, s.sqlite)
  {
    InvRun(Start(sqlite, postgres), actions);
  }

  /** Main result: when a migration has finished without error, every row of its snapshot is in Postgres. */
  lemma CompletedMigrationCopied(sqlite: Table, postgres: Table, actions: seq<Action>)
    requires SubTable(postgres, sqlite) && ValidRun(Start(sqlite, postgres), actions)
    requires Run(Start(sqlite, postgres), actions).migration.Completed?
    ensures var s := Run(Start(sqlite, postgres), actions);
      forall e :: e in s.migration.rows ==> e.id in s.postgres && s.postgres[e.id] == e
  {
    InvRun(Start(sqlite, postgres), actions);
  }

  /** A crash of the migration ends it: it changes neither table, no row is copied any more, and another one
      may start. */
  lemma CrashEndsMigration(s: System, outcome: Outcome, rows: seq<Event>)
    requires Enabled(s, MigrationCrash)
    ensures var s1 := Step(s, MigrationCrash);
      && s1.sqlite == s.sqlite && s1.postgres == s.postgres && s1.pending == s.pending
      && !Enabled(s1, MigrationCopy(outcome)) && !Enabled(s1, MigrationFinish) && !s1.migration.Completed?
      && (IsSnapshot(rows, s1.sqlite) ==> Enabled(s1, MigrationStart(rows)))
  {
  }

  // ---- What a migration leaves out ----

  /** The ids that an action after the snapshot `rows` leaves in SQLite only: a commit whose caller saw an
      error, a failed second write of an event the snapshot does not have, or such events pending at a crash. */
  ghost function LostBy(s: System, a: Action, rows: seq<Event>): set<int> {
    match a
    case SqliteWrite(e, outcome) => if outcome.Unacknowledged? && e.id !in s.sqlite then {e.id} else {}
    case PostgresWrite(e, outcome) => if outcome.Failed? then {e.id} - s.postgres.Keys - RowIds(rows) else {}
    case AppCrash => Ids(s.pending) - s.postgres.Keys - RowIds(rows)
    case _ => {}
  }

  ghost function LostIds(s: System, actions: seq<Action>, rows: seq<Event>): set<int>
    requires ValidRun(s, actions)
    decreases |actions|
  {
    if actions == [] then {} else LostBy(s, actions[0], rows) + LostIds(Step(s, actions[0]), actions[1..], rows)
  }

  /** The ids that nothing will bring to Postgres any more. */
  ghost function Stranded(s: System, rows: seq<Event>): set<int> {
    s.sqlite.Keys - s.postgres.Keys - Ids(s.pending) - RowIds(rows)
  }

  /** The current migration copies these rows. */
  predicate Migrates(s: System, rows: seq<Event>) {
    s.migration.Copying? || s.migration.Completed? ==> s.migration.rows == rows
  }

  lemma StrandedAfterSqliteWrite(s: System, e: Event, outcome: Outcome, rows: seq<Event>)
    requires Inv(s) && RowIds(rows) <= s.sqlite.Keys
    ensures var a := SqliteWrite(e, outcome);
      Stranded(Step(s, a), rows) == Stranded(s, rows) + LostBy(s, a, rows)
  {
    var s1 := Step(s, SqliteWrite(e, outcome));
    assert Ids(s1.pending) == Ids(s.pending) + if e.id !in s.sqlite && outcome.Committed? then {e.id} else {};
  }

  lemma StrandedAfterPostgresWrite(s: System, e: Event, outcome: Outcome, rows: seq<Event>)
    requires Inv(s) && e in s.pending
    ensures var a := PostgresWrite(e, outcome);
      Stranded(Step(s, a), rows) == Stranded(s, rows) + LostBy(s, a, rows)
  {
    var s1 := Step(s, PostgresWrite(e, outcome));
    assert Ids(s.pending) == Ids(s1.pending) + {e.id} by {
      assert forall x :: x in s.pending ==> x == e || x in s1.pending;
    }
    assert e.id !in Ids(s1.pending);
  }

  lemma StrandedAfterCopy(s: System, outcome: Outcome, rows: seq<Event>)
    requires Inv(s) && Enabled(s, MigrationCopy(outcome)) && s.migration.rows == rows
    ensures Stranded(Step(s, MigrationCopy(outcome)), rows) == Stranded(s, rows)
  {
    assert rows[s.migration.next] in rows;
    assert rows[s.migration.next].id in RowIds(rows);
  }

  lemma StrandedStep(s: System, a: Action, rows: seq<Event>)
    requires Inv(s) && Enabled(s, a) && !a.MigrationStart?
    requires Migrates(s, rows) && RowIds(rows) <= s.sqlite.Keys
    ensures Migrates(Step(s, a), rows) && RowIds(rows) <= Step(s, a).sqlite.Keys
    ensures Stranded(Step(s, a), rows) == Stranded(s, rows) + LostBy(s, a, rows)
  {
    match a
    case SqliteWrite(e, outcome) => StrandedAfterSqliteWrite(s, e, outcome, rows);
    case PostgresWrite(e, outcome) => StrandedAfterPostgresWrite(s, e, outcome, rows);
    case AppCrash => assert Ids({}) == {};
    case MigrationCopy(outcome) => StrandedAfterCopy(s, outcome, rows);
    case _ =>
  }

  predicate NoneStarts(actions: seq<Action>) {
    forall a <- actions :: !a.MigrationStart?
  }

  lemma {:induction false} StrandedRun(s: System, actions: seq<Action>, rows: seq<Event>)
    requires Inv(s) && ValidRun(s, actions) && NoneStarts(actions)
    requires Migrates(s, rows) && RowIds(rows) <= s.sqlite.Keys
    ensures Inv(Run(s, actions)) && Migrates(Run(s, actions), rows)
    ensures Stranded(Run(s, actions), rows) == Stranded(s, rows) + LostIds(s, actions, rows)
    decreases |actions|
  {
    if actions != [] {
      InvStep(s, actions[0]);
      StrandedStep(s, actions[0], rows);
      assert forall a <- actions[1..] :: a in actions;
      StrandedRun(Step(s, actions[0]), actions[1..], rows);
    }
  }

  lemma NothingMissing(s: System)
    requires SubTable(s.postgres, s.sqlite)
    ensures s.postgres == s.sqlite <==> s.sqlite.Keys - s.postgres.Keys == {}
  {
    if s.sqlite.Keys - s.postgres.Keys == {} {
      forall id | id in s.sqlite
        ensures id in s.postgres
      {
        assert id !in s.sqlite.Keys - s.postgres.Keys;
      }
    }
  }

  /** Main result: after any run, let a migration read its snapshot, and let anything happen after that but
      another migration. When the migration has finished and no write is pending, the rows Postgres misses
      are exactly those that the actions after the snapshot lost; so the stores are equal if and only if
      they lost none. */
  lemma MissingExactly(sqlite: Table, postgres: Table, before: seq<Action>, rows: seq<Event>, after: seq<Action>)
    requires SubTable(postgres, sqlite) && ValidRun(Start(sqlite, postgres), before)
    requires Enabled(Run(Start(sqlite, postgres), before), MigrationStart(rows)) && NoneStarts(after)
    requires var s := Step(Run(Start(sqlite, postgres), before), MigrationStart(rows));
      ValidRun(s, after) && Run(s, after).migration.Completed? && Run(s, after).pending == {}
    ensures var s := Step(Run(Start(sqlite, postgres), before), MigrationStart(rows));
      var end := Run(s, after);
      && end.sqlite.Keys - end.postgres.Keys == LostIds(s, after, rows)
      && (end.postgres == end.sqlite <==> LostIds(s, after, rows) == {})
  {
    var s0 := Run(Start(sqlite, postgres), before);
    var s := Step(s0, MigrationStart(rows));
    InvRun(Start(sqlite, postgres), before);
    InvStep(s0, MigrationStart(rows));
    StrandedRun(s, after, rows);
    NothingMissing(Run(s, after));
    assert Stranded(s, rows) == {} && Ids(Run(s, after).pending) == {};
  }

  /** Nothing went wrong: every Postgres insert committed or hit a duplicate, no crash lost a pending event,
      and no SQLite commit went unacknowledged. */
  ghost predicate Smooth(s: System, actions: seq<Action>)
    requires ValidRun(s, actions)
    decreases |actions|
  {
    actions != [] ==>
    && (match actions[0]
        case SqliteWrite(_, outcome) => !outcome.Unacknowledged?
        case PostgresWrite(e, outcome) => !outcome.Failed? || e.id in s.postgres
        case AppCrash => s.pending == {}
        case _ => true)
    && Smooth(Step(s, actions[0]), actions[1..])
  }

  lemma {:induction false} SmoothLosesNone(s: System, actions: seq<Action>, rows: seq<Event>)
    requires ValidRun(s, actions) && Smooth(s, actions)
    ensures LostIds(s, actions, rows) == {}
    decreases |actions|
  {
    if actions != [] {
      SmoothLosesNone(Step(s, actions[0]), actions[1..], rows);
    }
  }

  /** So the stores are equal at quiescence if nothing went wrong after the snapshot, whatever had gone
      wrong before it. */
  lemma EqualWhenSmooth(sqlite: Table, postgres: Table, before: seq<Action>, rows: seq<Event>, after: seq<Action>)
    requires SubTable(postgres, sqlite) && ValidRun(Start(sqlite, postgres), before)
    requires Enabled(Run(Start(sqlite, postgres), before), MigrationStart(rows)) && NoneStarts(after)
    requires var s := Step(Run(Start(sqlite, postgres), before), MigrationStart(rows));
      && ValidRun(s, after) && Run(s, after).migration.Completed? && Run(s, after).pending == {}
      && Smooth(s, after)
    ensures var end := Run(Step(Run(Start(sqlite, postgres), before), MigrationStart(rows)), after);
      end.postgres == end.sqlite
  {
    MissingExactly(sqlite, postgres, before, rows, after);
    SmoothLosesNone(Step(Run(Start(sqlite, postgres), before), MigrationStart(rows)), after, rows);
  }

  lemma FilledFromSnapshot(sqlite: Table, postgres: Table, rows: seq<Event>)
    requires SubTable(postgres, sqlite) && IsSnapshot(rows, sqlite)
    ensures D.Fill(postgres, rows) == sqlite
  {
    var filled := D.Fill(postgres, rows);
    D.FillContents(postgres, rows);
    forall id | id in sqlite
      ensures id in filled && filled[id] == sqlite[id]
    {
      assert sqlite[id] in rows;
    }
    assert forall id :: id in filled ==> id in sqlite;
  }

  lemma UndisturbedMigration(s: System, rows: seq<Event>)
    requires SubTable(s.postgres, s.sqlite) && Enabled(s, MigrationStart(rows))
    ensures ValidRun(Step(s, MigrationStart(rows)), D.Undisturbed(|rows|))
    ensures Run(Step(s, MigrationStart(rows)), D.Undisturbed(|rows|))
         == s.(postgres := s.sqlite, migration := Completed(rows))
  {
    D.AllCopiesFill(Step(s, MigrationStart(rows)), rows);
    FilledFromSnapshot(s.sqlite, s.postgres, rows);
  }

  /** Another migration, if nothing disturbs it, makes the stores equal after any run. */
  lemma MigrationRepairs(sqlite: Table, postgres: Table, before: seq<Action>, rows: seq<Event>)
    requires SubTable(postgres, sqlite) && ValidRun(Start(sqlite, postgres), before)
    requires Enabled(Run(Start(sqlite, postgres), before), MigrationStart(rows))
    ensures var s := Step(Run(Start(sqlite, postgres), before), MigrationStart(rows));
      var actions := D.Undisturbed(|rows|);
      ValidRun(s, actions) && Run(s, actions).postgres == Run(s, actions).sqlite
  {
    InvRun(Start(sqlite, postgres), before);
    UndisturbedMigration(Run(Start(sqlite, postgres), before), rows);
  }

  lemma {:induction false} SqliteOnlyGrows(s: System, actions: seq<Action>)
    requires ValidRun(s, actions)
    ensures SubTable(s.sqlite, Run(s, actions).sqlite)
    decreases |actions|
  {
    if actions != [] {
      SqliteOnlyGrows(Step(s, actions[0]), actions[1..]);
    }
  }

  /** An event whose SQLite write was acknowledged is what get_event reads ever after: no later write,
      failure, crash or migration changes or removes it. */
  lemma AcknowledgedEventIsDurable(s: System, e: Event, outcome: Outcome, later: seq<Action>)
    requires Insert(s.sqlite, e, outcome).1
    requires ValidRun(Step(s, SqliteWrite(e, outcome)), later)
    ensures var s1 := Run(Step(s, SqliteWrite(e, outcome)), later);
      e.id in s1.sqlite && s1.sqlite[e.id] == e
  {
    SqliteOnlyGrows(Step(s, SqliteWrite(e, outcome)), later);
  }

  /** A second write that fails after the snapshot was read leaves the stores different until
      another migration: migration and acknowledged writes alone do not make them equal. */
  lemma LateFailureIsNotRepaired(e: Event)
    ensures var actions := [MigrationStart([]), SqliteWrite(e, Committed), PostgresWrite(e, Failed), MigrationFinish];
      && ValidRun(Start(map[], map[]), actions)
      && var s := Run(Start(map[], map[]), actions);
         s.migration.Completed? && s.pending == {} && s.postgres != s.sqlite
  {
    var actions := [MigrationStart([]), SqliteWrite(e, Committed), PostgresWrite(e, Failed), MigrationFinish];
    var s0 := Start(map[], map[]);
    assert IsSnapshot([], s0.sqlite);
    var s1 := Step(s0, actions[0]);
    var s2 := Step(s1, actions[1]);
    var s3 := Step(s2, actions[2]);
    var s4 := Step(s3, actions[3]);
    assert ValidRun(s4, []) && Run(s4, []) == s4;
    assert actions[1..][1..][1..] == [MigrationFinish];
    assert ValidRun(s3, [MigrationFinish]) && Run(s3, [MigrationFinish]) == s4;
    assert actions[1..][1..] == [PostgresWrite(e, Failed), MigrationFinish];
    assert ValidRun(s2, actions[1..][1..]) && Run(s2, actions[1..][1..]) == s4;
    assert ValidRun(s1, actions[1..]) && Run(s1, actions[1..]) == s4;
  }
}
