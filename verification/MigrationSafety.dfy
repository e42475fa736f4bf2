/**
 What holds over every schedule of migration runs: the theorems over MigrationProtocol's steps.
 */
module MigrationSafety {
  import opened Options
  import opened MigrationRules
  import opened MigrationProtocol
  import opened VersionSets

  lemma StepKeeps(w: World, a: Action)
    requires Inv(w) && Enabled(w, a)
    ensures Inv(Step(w, a))
  {
    match a
    case Connect(_, _, _) => ConnectKeeps(w, a);
    case GrantLock(_) => GrantLockKeeps(w, a);
    case RefuseLock(_) => RefuseLockKeeps(w, a);
    case CheckEra(_) => CheckEraKeeps(w, a);
    case Ensure(_) => EnsureKeeps(w, a);
    case Plan(_) => PlanKeeps(w, a);
    case Begin(_) => BeginKeeps(w, a);
    case CommitOk(_) => CommitOkKeeps(w, a);
    case Rollback(_) => RollbackKeeps(w, a);
    case Finish(_) => FinishKeeps(w, a);
    case QueryError(_) => QueryErrorKeeps(w, a);
    case Unlock(_) => UnlockKeeps(w, a);
    case FailUnlock(_) => FailUnlockKeeps(w, a);
    case Release(_) => ReleaseKeeps(w, a);
    case LoseSession(_) => LoseSessionKeeps(w, a);
    case Crash(_) => CrashKeeps(w, a);
    case OrphanCommit(_) => OrphanCommitKeeps(w, a);
    case Reap(_) => ReapKeeps(w, a);
  }

  /** Before anything ran: a database, no lock, no clients. */
  function Start(db: Db): World {
    World(db, None, {}, map[], map[])
  }

  lemma {:induction false} ExecuteKeeps(w: World, actions: seq<Action>)
    requires Inv(w)
    ensures Inv(Execute(w, actions))
    decreases |actions|
  {
    if actions != [] {
      if Enabled(w, actions[0]) {
        StepKeeps(w, actions[0]);
        ExecuteKeeps(Step(w, actions[0]), actions[1..]);
      } else {
        ExecuteKeeps(w, actions[1..]);
      }
    }
  }

  // ---------------------------------------------------------------- effects and ledger

  lemma {:induction false} ExecuteExtends(w: World, actions: seq<Action>)
    ensures w.db.effects <= Execute(w, actions).db.effects && w.db.ledger <= Execute(w, actions).db.ledger
    decreases |actions|
  {
    if actions != [] {
      if Enabled(w, actions[0]) {
        ExecuteExtends(Step(w, actions[0]), actions[1..]);
      } else {
        ExecuteExtends(w, actions[1..]);
      }
    }
  }

  /**
   Over every schedule, from any database whose ledger told the truth: the ledger still names exactly
   the numbers of the committed files, they were committed in strictly ascending order (so no number twice),
   and what was committed stays committed.
   */
  lemma LedgerAlwaysTruthful(db: Db, actions: seq<Action>)
    requires LedgerTruthful(db)
    ensures LedgerTruthful(Execute(Start(db), actions).db)
    ensures db.effects <= Execute(Start(db), actions).db.effects
  {
    ExecuteKeeps(Start(db), actions);
    ExecuteExtends(Start(db), actions);
  }

  /** Once a file has run, no other file of its number ever does, over every schedule of every build. */
  lemma OneFileRunsPerNumber(db: Db, before: seq<Action>, after: seq<Action>, m: PendingMigration, n: PendingMigration)
    requires LedgerTruthful(db) && m != n && m.version == n.version
    requires m in Execute(Start(db), before).db.effects
    ensures n !in Execute(Execute(Start(db), before), after).db.effects
  {
    ExecuteKeeps(Start(db), before);
    ExecuteKeeps(Execute(Start(db), before), after);
    ExecuteExtends(Execute(Start(db), before), after);
    var last := Execute(Execute(Start(db), before), after).db;
    if n in last.effects {
      TruthfulVersions(last, m, n);
    }
  }

  // ---------------------------------------------------------------- the lock

  /** At most one live run is between taking the lock and giving it back. */
  lemma MutualExclusion(db: Db, actions: seq<Action>, r: nat, q: nat)
    requires LedgerTruthful(db)
    requires var w := Execute(Start(db), actions);
             r in w.runs && q in w.runs && OwnsLock(w.runs[r]) && OwnsLock(w.runs[q])
    ensures r == q
  {
    ExecuteKeeps(Start(db), actions);
  }

  /** No client in the pool holds the advisory lock. */
  lemma PooledClientsHoldNoLock(db: Db, actions: seq<Action>, s: nat)
    requires LedgerTruthful(db) && s in Execute(Start(db), actions).idle
    ensures Execute(Start(db), actions).lock != Some(s)
  {
    ExecuteKeeps(Start(db), actions);
  }

  /** The lock's holder is a session the server will close, or one a live run still owns. */
  ghost predicate LockAccounted(w: World) {
    w.lock.Some? ==>
      || w.lock.value in w.orphans
      || exists r :: r in w.runs && Holds(w.runs[r]) && w.runs[r].session == w.lock.value
  }

  lemma StepAccounted(w: World, a: Action)
    requires Inv(w) && LockAccounted(w) && Enabled(w, a)
    ensures LockAccounted(Step(w, a))
  {
    var next := Step(w, a);
    if a.GrantLock? {
      assert next.runs[a.r].session == next.lock.value;
    } else if next.lock.Some? && next.lock.value !in next.orphans {
      assert next.lock == w.lock;
      if w.lock.value !in w.orphans {
        var r :| r in w.runs && Holds(w.runs[r]) && w.runs[r].session == w.lock.value;
        assert r in next.runs && next.runs[r].session == next.lock.value;
        assert Holds(next.runs[r]);
      }
    }
  }

  /** The lock never leaks: over every schedule someone who can still give it up holds it. */
  lemma {:induction false} LockNeverLeaks(w: World, actions: seq<Action>)
    requires Inv(w) && LockAccounted(w)
    ensures LockAccounted(Execute(w, actions))
    decreases |actions|
  {
    if actions != [] {
      if Enabled(w, actions[0]) {
        StepAccounted(w, actions[0]);
        StepKeeps(w, actions[0]);
        LockNeverLeaks(Step(w, actions[0]), actions[1..]);
      } else {
        LockNeverLeaks(w, actions[1..]);
      }
    }
  }

  // ---------------------------------------------------------------- isolation and refusals

  predicate ActsFor(a: Action, r: nat) {
    match a
    case OrphanCommit(_) => false
    case Reap(_) => false
    case _ => a.r == r
  }

  /** While a run owns the lock, nobody else's step changes the database or the run. */
  lemma OwnerIsIsolated(w: World, a: Action, r: nat)
    requires Inv(w) && Enabled(w, a) && r in w.runs && OwnsLock(w.runs[r]) && !ActsFor(a, r)
    ensures Step(w, a).db == w.db
    ensures r in Step(w, a).runs && Step(w, a).runs[r] == w.runs[r]
  {
  }

  predicate IsRefusal(o: Outcome) {
    o.RefusedBranchEra? || o.RefusedGap?
  }

  /**
   Over every schedule, a run about to report a refusal has left the database exactly as it found it
   when the lock was granted, the missing schema_version table included.
   */
  lemma RefusedRunChangesNothing(db: Db, actions: seq<Action>, r: nat)
    requires LedgerTruthful(db)
    requires var w := Execute(Start(db), actions);
             && r in w.runs && OwnsLock(w.runs[r]) && w.runs[r].phase.Finishing?
             && IsRefusal(w.runs[r].phase.outcome)
    ensures var w := Execute(Start(db), actions); w.db == w.runs[r].base
  {
    ExecuteKeeps(Start(db), actions);
  }

  /** Over every schedule, what a live run reports is what it did to the database it found. */
  lemma ReportsAreTrue(db: Db, actions: seq<Action>, r: nat)
    requires LedgerTruthful(db)
    requires var w := Execute(Start(db), actions);
             r in w.runs && OwnsLock(w.runs[r]) && w.runs[r].phase.Finishing?
    ensures var w := Execute(Start(db), actions);
            RunEffect(w.runs[r].base, w.runs[r].build, w.runs[r].phase.outcome, w.db)
  {
    ExecuteKeeps(Start(db), actions);
  }

  // ---------------------------------------------------------------- reports of any run, cut off or not

  predicate Ran(effects: seq<PendingMigration>, plan: seq<PendingMigration>, k: nat) {
    k <= |plan| && forall i | 0 <= i < k :: plan[i] in effects
  }

  /** A success names files that all ran; a failure names a file whose predecessors all ran. */
  predicate ToldBy(effects: seq<PendingMigration>, plan: seq<PendingMigration>, outcome: Outcome) {
    match outcome
    case Succeeded(files) => files == Names(plan) && Ran(effects, plan, |plan|)
    case FailedAt(m) => exists k | 0 <= k < |plan| :: plan[k] == m && Ran(effects, plan, k)
    case _ => true
  }

  ghost predicate Told(effects: seq<PendingMigration>, run: Run) {
    var plan := Pending(run.base, run.build);
    match run.phase
    case Applying(pending, next) => pending == plan && Ran(effects, plan, next)
    case Committing(pending, next) => pending == plan && Ran(effects, plan, next) && next < |plan|
    case Finishing(outcome, _) => ToldBy(effects, plan, outcome)
    case Releasing(outcome, _) => ToldBy(effects, plan, outcome)
    case Returned(outcome) => ToldBy(effects, plan, outcome)
    case _ => true
  }

  ghost predicate AllTold(w: World) {
    forall r | r in w.runs :: Told(w.db.effects, w.runs[r])
  }

  lemma ToldLater(before: seq<PendingMigration>, after: seq<PendingMigration>, run: Run)
    requires Told(before, run) && before <= after
    ensures Told(after, run)
  {
    assert forall m | m in before :: m in after;
  }

  /** Plan is where a run's plan becomes what Pending says of the database it found. */
  lemma PlanTold(w: World, a: Action)
    requires Inv(w) && Enabled(w, a) && a.Plan?
    ensures Told(Step(w, a).db.effects, Step(w, a).runs[a.r])
  {
    OwnerProgress(w, a.r);
    assert w.db.ledger == w.runs[a.r].base.ledger;
  }

  lemma RanNext(effects: seq<PendingMigration>, plan: seq<PendingMigration>, k: nat)
    requires Ran(effects, plan, k) && k < |plan|
    ensures Ran(effects + [plan[k]], plan, k + 1)
  {
    forall i | 0 <= i <= k ensures plan[i] in effects + [plan[k]] {
      assert i < k ==> plan[i] in effects;
    }
  }

  lemma CommitTold(w: World, r: nat)
    requires CanCommit(w, r) && Told(w.db.effects, w.runs[r])
    ensures Told(Committed(w, r).db.effects, Committed(w, r).runs[r])
  {
    var run := w.runs[r];
    RanNext(w.db.effects, run.phase.pending, run.phase.next);
  }

  lemma ActorTold(w: World, a: Action, r: nat)
    requires Enabled(w, a) && ActsFor(a, r) && r in Step(w, a).runs && !a.Plan? && !a.CommitOk?
    requires r in w.runs ==> Told(w.db.effects, w.runs[r])
    ensures Told(Step(w, a).db.effects, Step(w, a).runs[r])
  {
  }

  lemma StepTold(w: World, a: Action)
    requires Inv(w) && AllTold(w) && Enabled(w, a)
    ensures AllTold(Step(w, a))
  {
    StepExtends(w, a);
    forall r | r in Step(w, a).runs
      ensures Told(Step(w, a).db.effects, Step(w, a).runs[r])
    {
      if a.Plan? && a.r == r {
        PlanTold(w, a);
      } else if a.CommitOk? && a.r == r {
        CommitTold(w, r);
      } else if ActsFor(a, r) {
        ActorTold(w, a, r);
      } else {
        ToldLater(w.db.effects, Step(w, a).db.effects, w.runs[r]);
      }
    }
  }

  lemma {:induction false} ExecuteTold(w: World, actions: seq<Action>)
    requires Inv(w) && AllTold(w)
    ensures AllTold(Execute(w, actions))
    decreases |actions|
  {
    if actions != [] {
      if Enabled(w, actions[0]) {
        StepTold(w, actions[0]);
        StepKeeps(w, actions[0]);
        ExecuteTold(Step(w, actions[0]), actions[1..]);
      } else {
        ExecuteTold(w, actions[1..]);
      }
    }
  }

  /**
   Over every schedule, for every run, its session alive or not: a success names the planned files and they
   all ran; a failure names a planned file, and every file planned before it ran. Only for a run cut off from its
   session is it open whether the named file ran too (LostAcknowledgement); otherwise ReportsAreTrue.
   */
  lemma EveryReportHolds(db: Db, actions: seq<Action>, r: nat)
    requires LedgerTruthful(db)
    requires var w := Execute(Start(db), actions); r in w.runs && w.runs[r].phase.Returned?
    ensures var w := Execute(Start(db), actions);
            ToldBy(w.db.effects, Pending(w.runs[r].base, w.runs[r].build), w.runs[r].phase.outcome)
  {
    ExecuteTold(Start(db), actions);
  }

  /** A run cut off while its commit is under way reports that file as failed although it ran. */
  lemma LostAcknowledgement(w: World, r: nat)
    requires CanCommit(w, r)
    ensures var m := NextMigration(w.runs[r]);
            var after := Execute(w, [LoseSession(r), OrphanCommit(w.runs[r].session), Rollback(r)]);
            && r in after.runs && after.runs[r].phase == Finishing(FailedAt(m), true)
            && m in after.db.effects && m.version in after.db.ledger
  {
    var s := w.runs[r].session;
    var actions := [LoseSession(r), OrphanCommit(s), Rollback(r)];
    var lost := Step(w, LoseSession(r));
    var committed := Step(lost, OrphanCommit(s));
    assert actions[1..] == [OrphanCommit(s), Rollback(r)] && actions[1..][1..] == [Rollback(r)];
    assert Execute(w, actions) == Execute(lost, actions[1..]);
    assert Execute(lost, actions[1..]) == Execute(committed, actions[1..][1..]);
    assert Execute(committed, [Rollback(r)]) == Execute(Step(committed, Rollback(r)), [Rollback(r)][1..]);
  }

  // ---------------------------------------------------------------- success lasts

  predicate Reported(run: Run) {
    || (run.phase.Finishing? && run.phase.outcome.Succeeded?)
    || (run.phase.Releasing? && run.phase.outcome.Succeeded?)
    || (run.phase.Returned? && run.phase.outcome.Succeeded?)
  }

  /** Every file of the run's directory has run, but for the two kinds a success passes over. */
  ghost predicate Covered(effects: seq<PendingMigration>, run: Run) {
    forall m | m in Files(run.build) :: m in effects || Displaced(run.base, m) || Overlooked(run.base, m)
  }

  ghost predicate AllCovered(w: World) {
    forall r | r in w.runs && Reported(w.runs[r]) :: Covered(w.db.effects, w.runs[r])
  }

  lemma FinishCovers(w: World, r: nat)
    requires Inv(w) && Enabled(w, Finish(r))
    ensures Covered(w.db.effects, w.runs[r])
  {
    var run := w.runs[r];
    OwnerProgress(w, r);
    forall m | m in Files(run.build)
      ensures m in w.db.effects || Displaced(run.base, m) || Overlooked(run.base, m)
    {
      SuccessRuns(run.base, run.build, Names(run.phase.pending), w.db, m);
    }
  }

  lemma StepExtends(w: World, a: Action)
    requires Enabled(w, a)
    ensures w.db.effects <= Step(w, a).db.effects
  {
  }

  lemma StepCovers(w: World, a: Action)
    requires Inv(w) && AllCovered(w) && Enabled(w, a)
    ensures AllCovered(Step(w, a))
  {
    if a.Finish? {
      FinishCovers(w, a.r);
    }
    StepExtends(w, a);
    var next := Step(w, a);
    forall r | r in next.runs && Reported(next.runs[r])
      ensures Covered(next.db.effects, next.runs[r])
    {
      assert r in w.runs && next.runs[r].build == w.runs[r].build && next.runs[r].base == w.runs[r].base;
      assert Covered(w.db.effects, w.runs[r]);
    }
  }

  lemma {:induction false} SuccessLasts(w: World, actions: seq<Action>)
    requires Inv(w) && AllCovered(w)
    ensures AllCovered(Execute(w, actions))
    decreases |actions|
  {
    if actions != [] {
      if Enabled(w, actions[0]) {
        StepCovers(w, actions[0]);
        StepKeeps(w, actions[0]);
        SuccessLasts(Step(w, actions[0]), actions[1..]);
      } else {
        SuccessLasts(w, actions[1..]);
      }
    }
  }

  // ---------------------------------------------------------------- the positive marker

  /** The version of the migration that creates the marker table. */
  const MARKER_VERSION := 112

  predicate CreatesLighter(sql: Sql) {
    exists t | t in sql.creates :: IsLighterTable(t)
  }

  /** The SQL a build under the current numbering may give to a version. */
  predicate Lawful(version: int, sql: Sql) {
    && (forall t | t in sql.creates :: t !in LINEAGE_TABLES)
    && (if version == MARKER_VERSION then MARKER_TABLE in sql.creates && sql.markerRows == [MARKER_LINEAGE]
        else sql.markerRows == [] && (CreatesLighter(sql) ==> version > MARKER_VERSION))
  }

  /** Such a build: lawful files, and the marker's file present wherever a later lighter file is. */
  predicate WellNumbered(build: Build) {
    forall m | m in Files(build) && m.file in build.sql ::
      && Lawful(m.version, build.sql[m.file])
      && (CreatesLighter(build.sql[m.file]) ==> HasFile(build, MARKER_VERSION))
  }

  /** Lighter tables appear only together with the marker and its one row. */
  predicate Marked(db: Db) {
    && (forall t | t in db.tables :: t !in LINEAGE_TABLES)
    && (if MARKER_VERSION in db.ledger then MARKER_TABLE in db.tables && db.marker == [MARKER_LINEAGE]
        else db.marker == [] && forall t | t in db.tables :: !IsLighterTable(t))
  }

  predicate MayCommit(db: Db, m: PendingMigration, sql: Sql) {
    && Lawful(m.version, sql)
    && (CreatesLighter(sql) && m.version != MARKER_VERSION ==> MARKER_VERSION in db.ledger)
  }

  /** A file below a pending one is pending itself, or was recorded before. */
  lemma LowerFile(base: Db, build: Build, m: PendingMigration)
    requires m in Files(build) && 0 < m.version && Gaps(base, build) == []
    ensures m.version in base.ledger || m in Pending(base, build)
  {
    FileCovered(base, build, m);
  }

  /** A run under way has already recorded every file of its directory below the next one. */
  lemma LowerFilesRecorded(base: Db, build: Build, next: nat, db: Db, version: int)
    requires next < |Pending(base, build)| && Progressed(base, build, next, db)
    requires HasFile(build, version) && 0 < version < Pending(base, build)[next].version
    ensures version in db.ledger
  {
    var pending := Pending(base, build);
    var m :| m in Files(build) && m.version == version;
    LowerFile(base, build, m);
    CommitFirstLedger(EnsureTable(base), build, pending, next);
    if version !in base.ledger {
      PendingAbove(base, build);
      var i :| 0 <= i < |pending| && pending[i] == m;
      assert i < next && pending[i].version == version;
    }
  }

  lemma NextMayCommit(db: Db, run: Run)
    requires run.phase.Committing? && Underway(db, run, run.phase.pending, run.phase.next) && ReadableNext(run)
    requires WellNumbered(run.build)
    ensures MayCommit(db, NextMigration(run), NextSql(run))
  {
    var m := run.phase.pending[run.phase.next];
    assert m in run.phase.pending && m in Files(run.build);
    if CreatesLighter(NextSql(run)) && m.version != MARKER_VERSION {
      LowerFilesRecorded(run.base, run.build, run.phase.next, db, MARKER_VERSION);
    }
  }

  predicate NotBranchEra(phase: Phase) {
    && (phase.Finishing? ==> !phase.outcome.RefusedBranchEra?)
    && (phase.Releasing? ==> !phase.outcome.RefusedBranchEra?)
    && (phase.Returned? ==> !phase.outcome.RefusedBranchEra?)
  }

  ghost predicate MarkedRuns(w: World) {
    forall r | r in w.runs :: WellNumbered(w.runs[r].build) && NotBranchEra(w.runs[r].phase)
  }

  ghost predicate MarkedOrphans(w: World) {
    forall s | s in w.orphans && w.orphans[s].inFlight.Some? ::
      MayCommit(w.db, w.orphans[s].inFlight.value.0, w.orphans[s].inFlight.value.1)
  }

  ghost predicate MarkerInv(w: World) {
    Marked(w.db) && MarkedRuns(w) && MarkedOrphans(w)
  }

  lemma StepMarked(w: World, a: Action)
    requires Inv(w) && MarkerInv(w) && Enabled(w, a)
    requires a.Connect? ==> WellNumbered(a.build)
    ensures MarkerInv(Step(w, a))
  {
    StepMarkedDb(w, a);
    StepMarkedRuns(w, a);
    StepMarkedOrphans(w, a);
  }

  lemma StepMarkedRuns(w: World, a: Action)
    requires MarkerInv(w) && Enabled(w, a) && (a.Connect? ==> WellNumbered(a.build))
    ensures MarkedRuns(Step(w, a))
  {
    forall r | r in Step(w, a).runs
      ensures WellNumbered(Step(w, a).runs[r].build) && NotBranchEra(Step(w, a).runs[r].phase)
    {
      StepKeepsBuild(w, a, r);
    }
  }

  lemma StepKeepsBuild(w: World, a: Action, r: nat)
    requires Enabled(w, a) && r in Step(w, a).runs && BranchEra(w.db).None?
    ensures Step(w, a).runs[r].build == if a.Connect? && a.r == r then a.build else if r in w.runs then w.runs[r].build else a.build
    ensures r in w.runs || a.Connect?
    ensures (r in w.runs ==> NotBranchEra(w.runs[r].phase)) ==> NotBranchEra(Step(w, a).runs[r].phase)
  {
  }

  lemma StepMarkedOrphans(w: World, a: Action)
    requires Inv(w) && MarkerInv(w) && Enabled(w, a)
    ensures MarkedOrphans(Step(w, a))
  {
    if (a.Crash? || a.LoseSession?) && w.runs[a.r].alive && InFlight(w.runs[a.r]).Some? {
      NextMayCommit(w.db, w.runs[a.r]);
    }
  }

  lemma StepMarkedDb(w: World, a: Action)
    requires Inv(w) && MarkerInv(w) && Enabled(w, a)
    ensures Marked(Step(w, a).db)
  {
    if a.CommitOk? {
      var run := w.runs[a.r];
      NextMayCommit(w.db, run);
    } else if a.OrphanCommit? {
      var tx := w.orphans[a.session].inFlight.value;
    }
  }

  /**
   From a database that never saw branch-era tables, over every schedule of builds under the current
   numbering, however different their directories: the branch-era check accepts the database at every
   moment and no run is ever refused for it.
   */
  lemma {:induction false} NeverMistakenForBranchEra(w: World, actions: seq<Action>)
    requires Inv(w) && MarkerInv(w)
    requires forall a | a in actions && a.Connect? :: WellNumbered(a.build)
    ensures MarkerInv(Execute(w, actions)) && BranchEra(Execute(w, actions).db).None?
    decreases |actions|
  {
    if actions == [] {
    } else {
      if Enabled(w, actions[0]) {
        StepMarked(w, actions[0]);
        StepKeeps(w, actions[0]);
        NeverMistakenForBranchEra(Step(w, actions[0]), actions[1..]);
      } else {
        NeverMistakenForBranchEra(w, actions[1..]);
      }
    }
  }

  // ---------------------------------------------------------------- from the very start

  /** The lock is always held by a live run or by a session the server is about to close, or free. */
  lemma LockAlwaysAccounted(db: Db, actions: seq<Action>)
    requires LedgerTruthful(db)
    ensures LockAccounted(Execute(Start(db), actions))
  {
    LockNeverLeaks(Start(db), actions);
  }

  /** A run that reported success, however long ago: its directory has run, as far as SuccessRuns promises. */
  lemma SuccessfulRunStaysCovered(db: Db, actions: seq<Action>, r: nat)
    requires LedgerTruthful(db)
    requires var w := Execute(Start(db), actions); r in w.runs && Reported(w.runs[r])
    ensures var w := Execute(Start(db), actions); Covered(w.db.effects, w.runs[r])
  {
    SuccessLasts(Start(db), actions);
  }

  /** No run of a build under the current numbering is refused as branch-era. */
  lemma BranchEraNeverRefuses(db: Db, actions: seq<Action>, r: nat)
    requires LedgerTruthful(db) && Marked(db)
    requires forall a | a in actions && a.Connect? :: WellNumbered(a.build)
    requires r in Execute(Start(db), actions).runs
    ensures NotBranchEra(Execute(Start(db), actions).runs[r].phase)
  {
    NeverMistakenForBranchEra(Start(db), actions);
  }
}
