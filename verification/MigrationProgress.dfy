/** That a migration run left alone gets through: the steps of MigrationProtocol can do what the run is for. */
module MigrationProgress {
  import opened Options
  import opened MigrationRules
  import opened MigrationProtocol

  lemma {:induction false} ExecuteSplit(w: World, a: seq<Action>, b: seq<Action>)
    ensures Execute(w, a + b) == Execute(Execute(w, a), b)
    decreases |a|
  {
    if a == [] {
      assert a + b == b;
    } else {
      assert (a + b)[1..] == a[1..] + b;
      ExecuteSplit(if Enabled(w, a[0]) then Step(w, a[0]) else w, a[1..], b);
    }
  }

  lemma ExecuteOne(w: World, a: Action)
    requires Enabled(w, a)
    ensures Execute(w, [a]) == Step(w, a)
  {
    assert [a][1..] == [];
  }

  /** Each pending file is begun and committed. */
  function CommitAll(r: nat, n: nat): seq<Action> {
    if n == 0 then [] else [Begin(r), CommitOk(r)] + CommitAll(r, n - 1)
  }

  /** Where a run that started from this world under this lock stands after k commits. */
  ghost predicate At(w: World, start: World, r: nat, phase: Phase, db: Db) {
    && r in start.runs && w == WithPhase(start, r, phase).(db := db)
  }

  lemma CommitPair(w: World, start: World, r: nat, base: Db, pending: seq<PendingMigration>, k: nat)
    requires r in start.runs && start.runs[r].alive && Readable(start.runs[r].build, pending, |pending|)
    requires k < |pending| && pending[k].version !in CommitFirst(base, start.runs[r].build, pending, k).ledger
    requires At(w, start, r, Applying(pending, k), CommitFirst(base, start.runs[r].build, pending, k))
    ensures Enabled(w, Begin(r)) && Enabled(Step(w, Begin(r)), CommitOk(r))
    ensures At(Step(Step(w, Begin(r)), CommitOk(r)), start, r, Applying(pending, k + 1),
               CommitFirst(base, start.runs[r].build, pending, k + 1))
  {
    var begun := Step(w, Begin(r));
    assert begun.runs[r] == start.runs[r].(phase := Committing(pending, k));
    var after := Step(begun, CommitOk(r));
    assert after.runs == start.runs[r := start.runs[r].(phase := Applying(pending, k + 1))];
  }

  lemma DistinctAdmitted(base: Db, build: Build, pending: seq<PendingMigration>, i: nat)
    requires Readable(build, pending, |pending|) && Distinct(pending, |pending|) && i < |pending|
    requires StandsAbove(pending, base.ledger)
    ensures pending[i].version !in CommitFirst(base, build, pending, i).ledger
  {
    CommitFirstLedger(base, build, pending, i);
  }

  lemma CommitTwoSteps(w: World, start: World, r: nat, base: Db, pending: seq<PendingMigration>, k: nat)
    returns (next: World)
    requires r in start.runs && start.runs[r].alive && k < |pending|
    requires Readable(start.runs[r].build, pending, |pending|) && Distinct(pending, |pending|)
    requires StandsAbove(pending, base.ledger)
    requires At(w, start, r, Applying(pending, k), CommitFirst(base, start.runs[r].build, pending, k))
    ensures next == Execute(w, [Begin(r), CommitOk(r)])
    ensures At(next, start, r, Applying(pending, k + 1), CommitFirst(base, start.runs[r].build, pending, k + 1))
  {
    DistinctAdmitted(base, start.runs[r].build, pending, k);
    CommitPair(w, start, r, base, pending, k);
    assert [Begin(r), CommitOk(r)] == [Begin(r)] + [CommitOk(r)];
    ExecuteSplit(w, [Begin(r)], [CommitOk(r)]);
    ExecuteOne(w, Begin(r));
    ExecuteOne(Step(w, Begin(r)), CommitOk(r));
    next := Step(Step(w, Begin(r)), CommitOk(r));
  }

  lemma CommitAllSplit(w: World, r: nat, n: nat, next: World)
    requires n > 0 && next == Execute(w, [Begin(r), CommitOk(r)])
    ensures Execute(w, CommitAll(r, n)) == Execute(next, CommitAll(r, n - 1))
  {
    ExecuteSplit(w, [Begin(r), CommitOk(r)], CommitAll(r, n - 1));
  }

  lemma {:induction false} CommitsAll(w: World, start: World, r: nat, base: Db, pending: seq<PendingMigration>, k: nat,
                                      last: World)
    requires r in start.runs && start.runs[r].alive && k <= |pending|
    requires Readable(start.runs[r].build, pending, |pending|) && Distinct(pending, |pending|)
    requires StandsAbove(pending, base.ledger)
    requires At(w, start, r, Applying(pending, k), CommitFirst(base, start.runs[r].build, pending, k))
    requires last == Execute(w, CommitAll(r, |pending| - k))
    ensures At(last, start, r, Applying(pending, |pending|),
               CommitFirst(base, start.runs[r].build, pending, |pending|))
    decreases |pending| - k
  {
    if k < |pending| {
      var next := CommitTwoSteps(w, start, r, base, pending, k);
      CommitAllSplit(w, r, |pending| - k, next);
      CommitsAll(next, start, r, base, pending, k + 1, last);
    }
  }

  function Opening(r: nat): seq<Action> {
    [GrantLock(r), CheckEra(r), Ensure(r), Plan(r)]
  }

  function Closing(r: nat): seq<Action> {
    [Finish(r), Unlock(r), Release(r)]
  }

  lemma ExecuteTwo(w: World, a: Action, b: Action)
    requires Enabled(w, a) && Enabled(Step(w, a), b)
    ensures Execute(w, [a] + [b]) == Step(Step(w, a), b)
  {
    ExecuteSplit(w, [a], [b]);
    ExecuteOne(w, a);
    ExecuteOne(Step(w, a), b);
  }

  lemma Checks(w: World, r: nat)
    requires r in w.runs && w.runs[r].alive && w.runs[r].phase.Connected? && w.lock == None && BranchEra(w.db).None?
    ensures Execute(w, [GrantLock(r)] + [CheckEra(r)])
         == w.(lock := Some(w.runs[r].session), runs := w.runs[r := w.runs[r].(phase := Checked, base := w.db)])
  {
    ExecuteTwo(w, GrantLock(r), CheckEra(r));
    assert Step(Step(w, GrantLock(r)), CheckEra(r)).runs == w.runs[r := w.runs[r].(phase := Checked, base := w.db)];
  }

  lemma Plans(w: World, r: nat)
    requires r in w.runs && w.runs[r].alive && w.runs[r].phase.Checked? && Gaps(EnsureTable(w.db), w.runs[r].build) == []
    ensures Execute(w, [Ensure(r)] + [Plan(r)])
         == WithPhase(w, r, Applying(Pending(EnsureTable(w.db), w.runs[r].build), 0)).(db := EnsureTable(w.db))
  {
    ExecuteTwo(w, Ensure(r), Plan(r));
    var planned := w.runs[r].(phase := Applying(Pending(EnsureTable(w.db), w.runs[r].build), 0));
    assert Step(Step(w, Ensure(r)), Plan(r)).runs == w.runs[r := planned];
  }

  /** A connected run that finds the lock free gets as far as its plan. */
  lemma Opens(w: World, r: nat)
    requires r in w.runs && w.runs[r].alive && w.runs[r].phase.Connected? && w.lock == None
    requires BranchEra(w.db).None? && Gaps(w.db, w.runs[r].build) == []
    ensures var run := w.runs[r].(phase := Applying(Pending(w.db, w.runs[r].build), 0), base := w.db);
            Execute(w, Opening(r))
            == w.(lock := Some(run.session), runs := w.runs[r := run], db := EnsureTable(w.db))
  {
    var checked := Execute(w, [GrantLock(r)] + [CheckEra(r)]);
    assert Opening(r) == ([GrantLock(r)] + [CheckEra(r)]) + ([Ensure(r)] + [Plan(r)]);
    ExecuteSplit(w, [GrantLock(r)] + [CheckEra(r)], [Ensure(r)] + [Plan(r)]);
    Checks(w, r);
    Plans(checked, r);
    var run := w.runs[r].(phase := Applying(Pending(w.db, w.runs[r].build), 0), base := w.db);
    assert w.runs[r := w.runs[r].(phase := Checked, base := w.db)][r := run] == w.runs[r := run];
  }

  /** A run that applied everything reports it, gives the lock back and its session to the pool. */
  lemma Closes(w: World, r: nat)
    requires r in w.runs && w.runs[r].alive && w.runs[r].phase.Applying? && w.lock == Some(w.runs[r].session)
    requires w.runs[r].phase.next == |w.runs[r].phase.pending|
    ensures var after := Execute(w, Closing(r));
            && r in after.runs && after.runs[r].phase == Returned(Succeeded(Names(w.runs[r].phase.pending)))
            && after.lock == None && w.runs[r].session in after.idle && after.db == w.db
  {
    var finished := Step(w, Finish(r));
    var unlocked := Step(finished, Unlock(r));
    assert Closing(r) == [Finish(r)] + ([Unlock(r)] + [Release(r)]);
    ExecuteSplit(w, [Finish(r)], [Unlock(r)] + [Release(r)]);
    ExecuteSplit(finished, [Unlock(r)], [Release(r)]);
    ExecuteOne(w, Finish(r));
    ExecuteOne(finished, Unlock(r));
    ExecuteOne(unlocked, Release(r));
  }

  /**
   A connected run that finds the lock free and is left alone succeeds: on a database without branch-era traces and
   gaps, with its pending files readable and distinct, it commits them all, returns the lock and pools its session.
   */
  lemma RunLeftAloneSucceeds(w: World, r: nat)
    requires r in w.runs && w.runs[r].alive && w.runs[r].phase.Connected? && w.lock == None
    requires BranchEra(w.db).None? && Gaps(w.db, w.runs[r].build) == []
    requires var pending := Pending(w.db, w.runs[r].build);
             Readable(w.runs[r].build, pending, |pending|) && Distinct(pending, |pending|)
    ensures var build, pending := w.runs[r].build, Pending(w.db, w.runs[r].build);
            var after := Execute(w, Opening(r) + CommitAll(r, |pending|) + Closing(r));
            && r in after.runs && after.runs[r].phase == Returned(Succeeded(Names(pending)))
            && after.db == CommitFirst(EnsureTable(w.db), build, pending, |pending|)
            && after.lock == None && w.runs[r].session in after.idle
  {
    var build, pending := w.runs[r].build, Pending(w.db, w.runs[r].build);
    var planned := Execute(w, Opening(r));
    Opens(w, r);
    PendingAbove(w.db, build);
    assert planned == WithPhase(planned, r, Applying(pending, 0)).(db := EnsureTable(w.db));
    var applied := Execute(planned, CommitAll(r, |pending|));
    CommitsAll(planned, planned, r, EnsureTable(w.db), pending, 0, applied);
    Closes(applied, r);
    ExecuteSplit(w, Opening(r) + CommitAll(r, |pending|), Closing(r));
    ExecuteSplit(w, Opening(r), CommitAll(r, |pending|));
  }

  // ---------------------------------------------------------------- what the files did

  /** The marker rows of the files from k on, in their order. */
  function MarkerRows(build: Build, pending: seq<PendingMigration>, k: nat): seq<string>
    requires k <= |pending| && Readable(build, pending, |pending|)
    decreases |pending| - k
  {
    if k == |pending| then [] else build.sql[pending[k].file].markerRows + MarkerRows(build, pending, k + 1)
  }

  lemma {:induction false} RowsLand(db: Db, build: Build, pending: seq<PendingMigration>, k: nat)
    requires k <= |pending| && Readable(build, pending, |pending|)
    ensures CommitFirst(db, build, pending, k).marker + MarkerRows(build, pending, k)
         == db.marker + MarkerRows(build, pending, 0)
    ensures forall t :: t in CommitFirst(db, build, pending, k).tables
                   <==> t in db.tables || exists i | 0 <= i < k :: t in build.sql[pending[i].file].creates
    decreases k
  {
    if k > 0 {
      RowsLand(db, build, pending, k - 1);
      var sql := build.sql[pending[k - 1].file];
      var before := CommitFirst(db, build, pending, k - 1);
      assert before.marker + (sql.markerRows + MarkerRows(build, pending, k))
          == (before.marker + sql.markerRows) + MarkerRows(build, pending, k);
    }
  }

  /** After a success the tables and marker rows of every pending file are there, in order, and nothing else is new. */
  lemma SqlLands(base: Db, build: Build, files: seq<string>, db: Db)
    requires RunEffect(base, build, Succeeded(files), db)
    ensures var pending := Pending(base, build);
            && Readable(build, pending, |pending|)
            && db.marker == base.marker + MarkerRows(build, pending, 0)
            && forall t :: t in db.tables
                      <==> t in base.tables || exists i | 0 <= i < |pending| :: t in build.sql[pending[i].file].creates
  {
    var pending := Pending(base, build);
    RowsLand(EnsureTable(base), build, pending, |pending|);
    assert db.marker + [] == db.marker;
  }
}
