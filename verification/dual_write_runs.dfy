/** What the two programs do, as actions of the interleaved system. */
module DualWriteRuns {
  import opened DualWriteModel
  import opened Sequences

  lemma RunOne(s: System, a: Action)
    requires Enabled(s, a)
    ensures ValidRun(s, [a]) && Run(s, [a]) == Step(s, a)
  {
    assert [a][1..] == [];
  }

  lemma {:induction false} RunConcat(s: System, xs: seq<Action>, ys: seq<Action>)
    requires ValidRun(s, xs) && ValidRun(Run(s, xs), ys)
    ensures ValidRun(s, xs + ys) && Run(s, xs + ys) == Run(Run(s, xs), ys)
    decreases |xs|
  {
    if xs == [] {
      assert xs + ys == ys;
    } else {
      AppendHead(xs, ys);
      RunConcat(Step(s, xs[0]), xs[1..], ys);
    }
  }

  lemma {:induction false} RunSplit(s: System, xs: seq<Action>, ys: seq<Action>)
    requires ValidRun(s, xs + ys)
    ensures ValidRun(s, xs) && ValidRun(Run(s, xs), ys) && Run(s, xs + ys) == Run(Run(s, xs), ys)
    decreases |xs|
  {
    if xs == [] {
      assert xs + ys == ys;
    } else {
      AppendHead(xs, ys);
      RunSplit(Step(s, xs[0]), xs[1..], ys);
    }
  }

  // ---- store_event ----

  /** The actions of one store_event; others act between its two writes. */
  function StoreActions(sqlite: Table, e: Event, first: Outcome, others: seq<Action>, second: Outcome): seq<Action> {
    if Insert(sqlite, e, first).1 then [SqliteWrite(e, first)] + (others + [PostgresWrite(e, second)])
    else [SqliteWrite(e, first)]
  }

  /** The application goes on running, and nobody else makes this call's second write. */
  predicate LeavesPending(others: seq<Action>, e: Event) {
    forall a <- others :: !a.AppCrash? && !(a.PostgresWrite? && a.event == e)
  }

  lemma {:induction false} StillPending(s: System, others: seq<Action>, e: Event)
    requires ValidRun(s, others) && LeavesPending(others, e) && e in s.pending
    ensures e in Run(s, others).pending
    decreases |others|
  {
    if others != [] {
      assert others[0] in others && forall a <- others[1..] :: a in others;
      StillPending(Step(s, others[0]), others[1..], e);
    }
  }

  /** The interval between the two writes, if there is one, is a run of the others. */
  ghost predicate BetweenWrites(s: System, e: Event, first: Outcome, others: seq<Action>) {
    Insert(s.sqlite, e, first).1 ==> ValidRun(Step(s, SqliteWrite(e, first)), others) && LeavesPending(others, e)
  }

  lemma StoreActionsRun(s: System, e: Event, first: Outcome, others: seq<Action>, second: Outcome)
    requires BetweenWrites(s, e, first, others)
    ensures ValidRun(s, StoreActions(s.sqlite, e, first, others, second))
    ensures var end, s1 := Run(s, StoreActions(s.sqlite, e, first, others, second)), Step(s, SqliteWrite(e, first));
      if Insert(s.sqlite, e, first).1 then
        && e in Run(s1, others).pending
        && end == Step(Run(s1, others), PostgresWrite(e, second))
      else end == s1
  {
    var write, mirror := SqliteWrite(e, first), PostgresWrite(e, second);
    RunOne(s, write);
    if Insert(s.sqlite, e, first).1 {
      var s1 := Step(s, write);
      StillPending(s1, others, e);
      RunOne(Run(s1, others), mirror);
      RunConcat(s1, others, [mirror]);
      RunConcat(s, [write], others + [mirror]);
    }
  }

  // ---- The migration loop ----

  /** t with the rows whose ids it does not have. */
  function Fill(t: Table, rows: seq<Event>): Table
    decreases |rows|
  {
    if rows == [] then t else InsertOrSkip(Fill(t, rows[..|rows| - 1]), rows[|rows| - 1], Committed).0
  }

  /** Filling keeps what is there and adds, for each other id, a row of the snapshot. */
  lemma {:induction false} FillContents(t: Table, rows: seq<Event>)
    ensures forall id :: id in t ==> id in Fill(t, rows) && Fill(t, rows)[id] == t[id]
    ensures forall id :: id in Fill(t, rows) && id !in t ==> Fill(t, rows)[id] in rows
    ensures forall e :: e in rows ==> e.id in Fill(t, rows)
    decreases |rows|
  {
    if rows != [] {
      var front := rows[..|rows| - 1];
      FillContents(t, front);
      assert rows == front + [rows[|rows| - 1]];
    }
  }

  lemma FillOneMore(t: Table, rows: seq<Event>, k: nat)
    requires k < |rows|
    ensures Fill(t, rows[..k + 1]) == InsertOrSkip(Fill(t, rows[..k]), rows[k], Committed).0
  {
    assert rows[..k + 1][..k] == rows[..k];
  }

  /** The number of rows in Postgres when a loop that has reached row k stops: all of them, or those up to
      the first error, with the row of the error if it was written but not acknowledged. */
  function Reached(outcomes: seq<Outcome>, k: nat): (n: nat)
    requires k <= |outcomes|
    ensures k <= n <= |outcomes|
    decreases |outcomes| - k
  {
    if k == |outcomes| then k
    else match outcomes[k]
      case Committed => Reached(outcomes, k + 1)
      case Unacknowledged => k + 1
      case Failed => k
  }

  predicate AllCommitted(outcomes: seq<Outcome>, k: nat) {
    forall i :: k <= i < |outcomes| ==> outcomes[i].Committed?
  }

  /** The loop from the k-th row on; others[i] is what others do before the i-th insert. */
  function LoopActions(outcomes: seq<Outcome>, others: seq<seq<Action>>, k: nat): seq<Action>
    requires |others| == |outcomes| && k <= |outcomes|
    decreases |outcomes| - k
  {
    if k == |outcomes| then [MigrationFinish]
    else others[k] + ([MigrationCopy(outcomes[k])]
                      + if outcomes[k].Committed? then LoopActions(outcomes, others, k + 1) else [])
  }

  predicate AboutMigration(a: Action) {
    a.MigrationStart? || a.MigrationCopy? || a.MigrationFinish? || a.MigrationCrash?
  }

  predicate LeaveMigration(others: seq<Action>) {
    forall a <- others :: !AboutMigration(a)
  }

  lemma {:induction false} MigrationStays(s: System, others: seq<Action>)
    requires ValidRun(s, others) && LeaveMigration(others)
    ensures Run(s, others).migration == s.migration
    decreases |others|
  {
    if others != [] {
      assert others[0] in others && forall a <- others[1..] :: a in others;
      MigrationStays(Step(s, others[0]), others[1..]);
    }
  }

  /** The rest of the loop, from the k-th row on, leads from s to end. */
  ghost predicate LeadsTo(s: System, outcomes: seq<Outcome>, others: seq<seq<Action>>, k: nat, end: System)
    requires |others| == |outcomes| && k <= |outcomes|
  {
    ValidRun(s, LoopActions(outcomes, others, k)) && Run(s, LoopActions(outcomes, others, k)) == end
  }

  /** One turn of the loop. */
  lemma LoopTurn(s: System, outcomes: seq<Outcome>, others: seq<seq<Action>>, k: nat, end: System)
    requires |others| == |outcomes| && k < |outcomes| && LeadsTo(s, outcomes, others, k, end)
    ensures ValidRun(s, others[k]) && Enabled(Run(s, others[k]), MigrationCopy(outcomes[k]))
    ensures var s1 := Step(Run(s, others[k]), MigrationCopy(outcomes[k]));
      if outcomes[k].Committed? then LeadsTo(s1, outcomes, others, k + 1, end) else s1 == end
  {
    var rest := if outcomes[k].Committed? then LoopActions(outcomes, others, k + 1) else [];
    var copy := MigrationCopy(outcomes[k]);
    RunSplit(s, others[k], [copy] + rest);
    AppendHead([copy], rest);
    assert [copy][1..] + rest == rest;
  }

  lemma LoopDone(s: System, outcomes: seq<Outcome>, others: seq<seq<Action>>, end: System)
    requires |others| == |outcomes| && LeadsTo(s, outcomes, others, |outcomes|, end)
    ensures Enabled(s, MigrationFinish) && Step(s, MigrationFinish) == end
  {
    assert LoopActions(outcomes, others, |outcomes|) == [MigrationFinish];
    assert ValidRun(s, [MigrationFinish]);
    RunOne(s, MigrationFinish);
  }

  lemma LoopAlone(outcomes: seq<Outcome>, others: seq<seq<Action>>, k: nat)
    requires |others| == |outcomes| && k < |outcomes| && others[k] == []
    ensures LoopActions(outcomes, others, k)
         == [MigrationCopy(outcomes[k])] + if outcomes[k].Committed? then LoopActions(outcomes, others, k + 1) else []
  {
  }

  /** The end of a loop that others do not touch. */
  ghost predicate LoopEnds(s: System, end: System, t: Table, rows: seq<Event>, outcomes: seq<Outcome>, k: nat)
    requires k <= |outcomes| == |rows|
  {
    end == s.(postgres := Fill(t, rows[..Reached(outcomes, k)]),
              migration := if AllCommitted(outcomes, k) then Completed(rows) else Aborted)
  }

  predicate NoOthers(others: seq<seq<Action>>) {
    forall i :: 0 <= i < |others| ==> others[i] == []
  }

  lemma LoopStops(s: System, t: Table, rows: seq<Event>, outcomes: seq<Outcome>, others: seq<seq<Action>>, k: nat)
    requires |others| == |outcomes| == |rows| && k < |rows| && others[k] == [] && !outcomes[k].Committed?
    requires s.migration == Copying(rows, k) && s.postgres == Fill(t, rows[..k])
    ensures ValidRun(s, LoopActions(outcomes, others, k))
    ensures LoopEnds(s, Run(s, LoopActions(outcomes, others, k)), t, rows, outcomes, k)
  {
    FillOneMore(t, rows, k);
    LoopAlone(outcomes, others, k);
    RunOne(s, MigrationCopy(outcomes[k]));
    assert !AllCommitted(outcomes, k);
  }

  lemma LoopGoesOn(s: System, outcomes: seq<Outcome>, others: seq<seq<Action>>, k: nat)
    requires |others| == |outcomes| && k < |outcomes| && others[k] == [] && outcomes[k].Committed?
    requires var copy := MigrationCopy(outcomes[k]);
      Enabled(s, copy) && ValidRun(Step(s, copy), LoopActions(outcomes, others, k + 1))
    ensures ValidRun(s, LoopActions(outcomes, others, k))
    ensures Run(s, LoopActions(outcomes, others, k))
         == Run(Step(s, MigrationCopy(outcomes[k])), LoopActions(outcomes, others, k + 1))
  {
    LoopAlone(outcomes, others, k);
  }

  /** From the k-th row on, it fills Postgres as far as the outcomes let it. */
  lemma {:induction false} LoopFills(s: System, t: Table, rows: seq<Event>, outcomes: seq<Outcome>,
                                     others: seq<seq<Action>>, k: nat)
    requires |others| == |outcomes| == |rows| && k <= |rows| && NoOthers(others)
    requires s.migration == Copying(rows, k) && s.postgres == Fill(t, rows[..k])
    ensures ValidRun(s, LoopActions(outcomes, others, k))
    ensures LoopEnds(s, Run(s, LoopActions(outcomes, others, k)), t, rows, outcomes, k)
    decreases |rows| - k
  {
    if k == |rows| {
      RunOne(s, MigrationFinish);
    } else if outcomes[k].Committed? {
      var s1 := Step(s, MigrationCopy(outcomes[k]));
      FillOneMore(t, rows, k);
      LoopFills(s1, t, rows, outcomes, others, k + 1);
      LoopGoesOn(s, outcomes, others, k);
    } else {
      LoopStops(s, t, rows, outcomes, others, k);
    }
  }

  lemma LoopFromStart(s: System, rows: seq<Event>, outcomes: seq<Outcome>, others: seq<seq<Action>>)
    requires |others| == |outcomes| == |rows| && NoOthers(others)
    requires s.migration == Copying(rows, 0)
    ensures ValidRun(s, LoopActions(outcomes, others, 0))
    ensures LoopEnds(s, Run(s, LoopActions(outcomes, others, 0)), s.postgres, rows, outcomes, 0)
  {
    assert rows[..0] == [];
    LoopFills(s, s.postgres, rows, outcomes, others, 0);
  }

  /** The actions of a loop over n rows that nothing disturbs. */
  function Undisturbed(n: nat): seq<Action> {
    LoopActions(seq(n, _ => Committed), seq(n, _ => []), 0)
  }

  lemma {:induction false} ReachedAll(outcomes: seq<Outcome>, k: nat)
    requires k <= |outcomes| && AllCommitted(outcomes, k)
    ensures Reached(outcomes, k) == |outcomes|
    decreases |outcomes| - k
  {
    if k < |outcomes| {
      ReachedAll(outcomes, k + 1);
    }
  }

  lemma AllCopiesFill(s: System, rows: seq<Event>)
    requires s.migration == Copying(rows, 0)
    ensures ValidRun(s, Undisturbed(|rows|))
    ensures Run(s, Undisturbed(|rows|)) == s.(postgres := Fill(s.postgres, rows), migration := Completed(rows))
  {
    var n := |rows|;
    LoopFromStart(s, rows, seq(n, _ => Committed), seq(n, _ => []));
    ReachedAll(seq(n, _ => Committed), 0);
    assert rows[..n] == rows;
  }
}
