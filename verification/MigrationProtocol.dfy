/**
 Migration runs as interleaved steps: any number of processes, each on its own pooled session, with a
 crash, a lost session or a failed query possible at every step, and builds that carry different
 directories. The decisions and effects are those of MigrationRules.
 */
module MigrationProtocol {
  import opened Options
  import opened MigrationRules

  datatype Phase =
    | Connected
    | Locked
    | Checked
    | Ensured
    | Applying(pending: seq<PendingMigration>, next: nat)
    | Committing(pending: seq<PendingMigration>, next: nat)
    | Finishing(outcome: Outcome, lockAcquired: bool)
    | Releasing(outcome: Outcome, unlockFailed: bool)
    | Returned(outcome: Outcome)

  /**
   One call of runMigrationsWithProgress. alive says whether its session still reaches the server;
   base is history: the database as found when the lock was granted.
   */
  datatype Run = Run(session: nat, build: Build, phase: Phase, alive: bool, base: Db)

  /** A session cut off from its client; until it is reaped the server may still commit what it had received. */
  datatype Orphan = Orphan(inFlight: Option<(PendingMigration, Sql)>)

  datatype World = World(
    db: Db,
    lock: Option<nat>,
    idle: set<nat>,
    runs: map<nat, Run>,
    orphans: map<nat, Orphan>)

  datatype Action =
    | Connect(r: nat, session: nat, build: Build)
    | GrantLock(r: nat)
    | RefuseLock(r: nat)
    | CheckEra(r: nat)
    | Ensure(r: nat)
    | Plan(r: nat)
    | Begin(r: nat)
    | CommitOk(r: nat)
    | Rollback(r: nat)
    | Finish(r: nat)
    | QueryError(r: nat)
    | Unlock(r: nat)
    | FailUnlock(r: nat)
    | Release(r: nat)
    | LoseSession(r: nat)
    | Crash(r: nat)
    | OrphanCommit(session: nat)
    | Reap(session: nat)

  // ---------------------------------------------------------------- steps

  /** A run that still owns a session. */
  predicate Holds(run: Run) {
    run.alive && !run.phase.Returned?
  }

  /** A session the server has just opened: nobody uses it and it holds nothing. */
  predicate NewSession(w: World, s: nat) {
    && s !in w.orphans && w.lock != Some(s)
    && (forall r | r in w.runs && Holds(w.runs[r]) :: w.runs[r].session != s)
  }

  function WithPhase(w: World, r: nat, phase: Phase): World
    requires r in w.runs
  {
    w.(runs := w.runs[r := w.runs[r].(phase := phase)])
  }

  function Unlocked(lock: Option<nat>, session: nat): Option<nat> {
    if lock == Some(session) then None else lock
  }

  predicate ReadableNext(run: Run)
    requires run.phase.Applying? || run.phase.Committing?
  {
    run.phase.next < |run.phase.pending| && run.phase.pending[run.phase.next].file in run.build.sql
  }

  function NextMigration(run: Run): PendingMigration
    requires (run.phase.Applying? || run.phase.Committing?) && ReadableNext(run)
  {
    run.phase.pending[run.phase.next]
  }

  function NextSql(run: Run): Sql
    requires (run.phase.Applying? || run.phase.Committing?) && ReadableNext(run)
  {
    run.build.sql[run.phase.pending[run.phase.next].file]
  }

  /** The transaction the server may still finish if the client is cut off now. */
  function InFlight(run: Run): Option<(PendingMigration, Sql)> {
    if run.phase.Committing? && ReadableNext(run) then Some((NextMigration(run), NextSql(run))) else None
  }

  predicate Enabled(w: World, a: Action) {
    match a
    case Connect(r, s, build) => r !in w.runs && (s in w.idle || NewSession(w, s))
    case GrantLock(r) =>
      r in w.runs && w.runs[r].alive && w.runs[r].phase.Connected?
      && (w.lock == None || w.lock == Some(w.runs[r].session))
    case RefuseLock(r) => r in w.runs && w.runs[r].phase.Connected?
    case CheckEra(r) => r in w.runs && w.runs[r].alive && w.runs[r].phase.Locked?
    case Ensure(r) => r in w.runs && w.runs[r].alive && w.runs[r].phase.Checked?
    case Plan(r) => r in w.runs && w.runs[r].alive && w.runs[r].phase.Ensured?
    case Begin(r) =>
      r in w.runs && w.runs[r].alive && w.runs[r].phase.Applying?
      && w.runs[r].phase.next < |w.runs[r].phase.pending|
    case CommitOk(r) => CanCommit(w, r)
    case Rollback(r) => r in w.runs && w.runs[r].phase.Committing? && ReadableNext(w.runs[r])
    case Finish(r) =>
      r in w.runs && w.runs[r].alive && w.runs[r].phase.Applying?
      && w.runs[r].phase.next == |w.runs[r].phase.pending|
    case QueryError(r) =>
      r in w.runs && (w.runs[r].phase.Locked? || w.runs[r].phase.Checked? || w.runs[r].phase.Ensured?
                      || (w.runs[r].phase.Applying? && !w.runs[r].alive))
    case Unlock(r) =>
      r in w.runs && w.runs[r].phase.Finishing? && (w.runs[r].phase.lockAcquired ==> w.runs[r].alive)
    case FailUnlock(r) => r in w.runs && w.runs[r].phase.Finishing? && w.runs[r].phase.lockAcquired
    case Release(r) => r in w.runs && w.runs[r].phase.Releasing?
    case LoseSession(r) => r in w.runs && Holds(w.runs[r])
    case Crash(r) => r in w.runs && !w.runs[r].phase.Returned?
    case OrphanCommit(s) =>
      s in w.orphans && w.orphans[s].inFlight.Some? && w.orphans[s].inFlight.value.0.version !in w.db.ledger
    case Reap(s) => s in w.orphans
  }

  /** The server can commit: the session is alive and the ledger's primary key admits the row. */
  predicate CanCommit(w: World, r: nat) {
    && r in w.runs && w.runs[r].alive && w.runs[r].phase.Committing?
    && ReadableNext(w.runs[r]) && NextMigration(w.runs[r]).version !in w.db.ledger
  }

  /** The next file's transaction is committed and acknowledged. */
  function Committed(w: World, r: nat): World
    requires CanCommit(w, r)
  {
    var run := w.runs[r];
    WithPhase(w, r, Applying(run.phase.pending, run.phase.next + 1))
      .(db := Commit(w.db, NextMigration(run), NextSql(run)))
  }

  function Step(w: World, a: Action): World
    requires Enabled(w, a)
  {
    match a
    case Connect(r, s, build) =>
      w.(idle := w.idle - {s}, runs := w.runs[r := Run(s, build, Connected, true, w.db)])
    case GrantLock(r) =>
      w.(lock := Some(w.runs[r].session), runs := w.runs[r := w.runs[r].(phase := Locked, base := w.db)])
    case RefuseLock(r) => WithPhase(w, r, Finishing(Errored, false))
    case CheckEra(r) =>
      var verdict := BranchEra(w.db);
      WithPhase(w, r, if verdict.Some? then Finishing(RefusedBranchEra(verdict.value), true) else Checked)
    case Ensure(r) => WithPhase(w, r, Ensured).(db := EnsureTable(w.db))
    case Plan(r) =>
      var gaps := Gaps(w.db, w.runs[r].build);
      if gaps != [] then WithPhase(w, r, Finishing(RefusedGap(gaps, CurrentVersion(w.db.ledger)), true))
      else WithPhase(w, r, Applying(Pending(w.db, w.runs[r].build), 0))
    case Begin(r) =>
      var run := w.runs[r];
      if !ReadableNext(run) then WithPhase(w, r, Finishing(Errored, true))
      else WithPhase(w, r, Committing(run.phase.pending, run.phase.next))
    case CommitOk(r) => Committed(w, r)
    case Rollback(r) =>
      var run := w.runs[r];
      WithPhase(w, r, Finishing(FailedAt(run.phase.pending[run.phase.next]), true))
    case Finish(r) => WithPhase(w, r, Finishing(Succeeded(Names(w.runs[r].phase.pending)), true))
    case QueryError(r) => WithPhase(w, r, Finishing(Errored, true))
    case Unlock(r) =>
      var run := w.runs[r];
      WithPhase(w, r, Releasing(run.phase.outcome, false))
        .(lock := if run.phase.lockAcquired then Unlocked(w.lock, run.session) else w.lock)
    case FailUnlock(r) => WithPhase(w, r, Releasing(w.runs[r].phase.outcome, true))
    case Release(r) =>
      var run := w.runs[r];
      var done := WithPhase(w, r, Returned(run.phase.outcome));
      if !run.alive then done
      else if run.phase.unlockFailed then done.(orphans := w.orphans[run.session := Orphan(None)])
      else done.(idle := w.idle + {run.session})
    case LoseSession(r) =>
      w.(runs := w.runs[r := w.runs[r].(alive := false)],
         orphans := w.orphans[w.runs[r].session := Orphan(InFlight(w.runs[r]))])
    case Crash(r) =>
      var gone := w.(runs := w.runs - {r});
      if !w.runs[r].alive then gone
      else gone.(orphans := w.orphans[w.runs[r].session := Orphan(InFlight(w.runs[r]))])
    case OrphanCommit(s) =>
      var tx := w.orphans[s].inFlight.value;
      w.(db := Commit(w.db, tx.0, tx.1), orphans := w.orphans[s := Orphan(None)])
    case Reap(s) => w.(lock := Unlocked(w.lock, s), orphans := w.orphans - {s})
  }

  /** Any schedule; an action that is not enabled when its turn comes is skipped. */
  function Execute(w: World, actions: seq<Action>): World
    decreases |actions|
  {
    if actions == [] then w
    else Execute(if Enabled(w, actions[0]) then Step(w, actions[0]) else w, actions[1..])
  }

  // ---------------------------------------------------------------- invariant

  predicate AtMost(ledger: set<int>, version: int) {
    forall v | v in ledger :: v <= version
  }

  /** Phases in which a live run owns the advisory lock. */
  predicate OwnsLock(run: Run) {
    && run.alive
    && (run.phase.Locked? || run.phase.Checked? || run.phase.Ensured? || run.phase.Applying?
        || run.phase.Committing? || (run.phase.Finishing? && run.phase.lockAcquired))
  }

  /** Phases in which it certainly does not. */
  predicate FreeOfLock(run: Run) {
    && run.alive
    && (run.phase.Connected? || (run.phase.Finishing? && !run.phase.lockAcquired)
        || (run.phase.Releasing? && !run.phase.unlockFailed))
  }

  ghost predicate Sessions(w: World) {
    && (forall r, q | r in w.runs && q in w.runs && r != q && Holds(w.runs[r]) && Holds(w.runs[q]) ::
          w.runs[r].session != w.runs[q].session)
    && (forall r | r in w.runs && Holds(w.runs[r]) ::
          w.runs[r].session !in w.idle && w.runs[r].session !in w.orphans)
    && (forall s | s in w.idle :: s !in w.orphans)
  }

  ghost predicate Lock(w: World) {
    && (forall r | r in w.runs && OwnsLock(w.runs[r]) :: w.lock == Some(w.runs[r].session))
    && (forall r | r in w.runs && FreeOfLock(w.runs[r]) :: w.lock != Some(w.runs[r].session))
    && (w.lock.Some? ==> w.lock.value !in w.idle)
    && (forall s | s in w.orphans && w.orphans[s].inFlight.Some? ::
          w.lock == Some(s) && w.db.hasLedger && AtMost(w.db.ledger, w.orphans[s].inFlight.value.0.version))
  }

  /** How far a live lock owner has taken the database from where it found it. */
  ghost predicate Progress(db: Db, run: Run) {
    && LedgerTruthful(run.base)
    && match run.phase
       case Locked => db == run.base
       case Checked => db == run.base && BranchEra(run.base).None?
       case Ensured => db == EnsureTable(run.base) && BranchEra(run.base).None?
       case Applying(pending, next) => Underway(db, run, pending, next)
       case Committing(pending, next) => Underway(db, run, pending, next) && ReadableNext(run)
       case Finishing(outcome, _) => RunEffect(run.base, run.build, outcome, db)
       case _ => true
  }

  ghost predicate Underway(db: Db, run: Run, pending: seq<PendingMigration>, next: nat) {
    && next <= |pending|
    && pending == Pending(run.base, run.build)
    && Progressed(run.base, run.build, next, db)
    && (forall i | next <= i < |pending| :: AtMost(db.ledger, pending[i].version))
  }

  ghost predicate Inv(w: World) {
    && LedgerTruthful(w.db) && Sessions(w) && Lock(w)
    && (forall r | r in w.runs && OwnsLock(w.runs[r]) :: Progress(w.db, w.runs[r]))
  }

  // ---------------------------------------------------------------- every step keeps it

  /** A run that only moves to another phase, on a database it has justified. */
  lemma PhaseKeeps(w: World, r: nat, phase: Phase)
    requires Inv(w) && r in w.runs && !w.runs[r].phase.Returned?
    requires var run := w.runs[r].(phase := phase);
             && (OwnsLock(run) ==> OwnsLock(w.runs[r]) && Progress(w.db, run))
             && (FreeOfLock(run) ==> w.lock != Some(run.session))
    ensures Inv(WithPhase(w, r, phase))
  {
  }

  /** The owner of the lock moves to another phase and writes the database. */
  lemma WriteKeeps(w: World, r: nat, phase: Phase, db: Db)
    requires Inv(w) && r in w.runs && OwnsLock(w.runs[r]) && LedgerTruthful(db)
    requires var run := w.runs[r].(phase := phase); OwnsLock(run) && Progress(db, run)
    ensures Inv(WithPhase(w, r, phase).(db := db))
  {
  }

  lemma ConnectKeeps(w: World, a: Action)
    requires Inv(w) && Enabled(w, a) && a.Connect?
    ensures Inv(Step(w, a))
  {
  }

  lemma GrantLockKeeps(w: World, a: Action)
    requires Inv(w) && Enabled(w, a) && a.GrantLock?
    ensures Inv(Step(w, a))
  {
  }

  lemma RefuseLockKeeps(w: World, a: Action)
    requires Inv(w) && Enabled(w, a) && a.RefuseLock?
    ensures Inv(Step(w, a))
  {
    var run := w.runs[a.r];
    PhaseKeeps(w, a.r, Step(w, a).runs[a.r].phase);
  }

  lemma CheckEraKeeps(w: World, a: Action)
    requires Inv(w) && Enabled(w, a) && a.CheckEra?
    ensures Inv(Step(w, a))
  {
    var run := w.runs[a.r];
    PhaseKeeps(w, a.r, Step(w, a).runs[a.r].phase);
  }

  lemma EnsureKeeps(w: World, a: Action)
    requires Inv(w) && Enabled(w, a) && a.Ensure?
    ensures Inv(Step(w, a))
  {
    WriteKeeps(w, a.r, Ensured, EnsureTable(w.db));
  }

  lemma PlanKeeps(w: World, a: Action)
    requires Inv(w) && Enabled(w, a) && a.Plan?
    ensures Inv(Step(w, a))
  {
    PendingAbove(w.db, w.runs[a.r].build);
    PhaseKeeps(w, a.r, Step(w, a).runs[a.r].phase);
  }

  /** The file a run is about to commit is not below anything recorded. */
  lemma NextAtMost(db: Db, run: Run)
    requires run.phase.Committing? && Underway(db, run, run.phase.pending, run.phase.next) && ReadableNext(run)
    ensures db.hasLedger && AtMost(db.ledger, NextMigration(run).version)
  {
    NextAbove(run.base, run.build, run.phase.next, db);
  }

  /** One more pending file committed by a run that is under way. */
  lemma CommitProgress(db: Db, run: Run)
    requires run.phase.Committing? && Underway(db, run, run.phase.pending, run.phase.next) && ReadableNext(run)
    requires NextMigration(run).version !in db.ledger
    ensures Underway(Commit(db, NextMigration(run), NextSql(run)), run, run.phase.pending, run.phase.next + 1)
  {
    PendingAbove(run.base, run.build);
    AppliedNext(EnsureTable(run.base), run.build, run.phase.pending, run.phase.next, db);
  }

  lemma BeginKeeps(w: World, a: Action)
    requires Inv(w) && Enabled(w, a) && a.Begin?
    ensures Inv(Step(w, a))
  {
    var run := w.runs[a.r];
    PhaseKeeps(w, a.r, Step(w, a).runs[a.r].phase);
  }

  /** What the database and the run are once the next file is committed. */
  lemma CommitReady(db: Db, run: Run)
    requires run.phase.Committing? && OwnsLock(run) && Progress(db, run) && ReadableNext(run) && LedgerTruthful(db)
    requires NextMigration(run).version !in db.ledger
    ensures var after := Commit(db, NextMigration(run), NextSql(run));
            var next := run.(phase := Applying(run.phase.pending, run.phase.next + 1));
            LedgerTruthful(after) && OwnsLock(next) && Progress(after, next)
  {
    NextAtMost(db, run);
    CommitProgress(db, run);
    CommitTruthful(db, NextMigration(run), NextSql(run));
  }

  lemma OwnerProgress(w: World, r: nat)
    requires Inv(w) && r in w.runs && OwnsLock(w.runs[r])
    ensures Progress(w.db, w.runs[r]) && LedgerTruthful(w.db)
  {
  }

  lemma CommittedReady(w: World, r: nat)
    requires Inv(w) && CanCommit(w, r)
    ensures var after := Committed(w, r);
            LedgerTruthful(after.db) && OwnsLock(w.runs[r]) && OwnsLock(after.runs[r]) && Progress(after.db, after.runs[r])
  {
    OwnerProgress(w, r);
    CommitReady(w.db, w.runs[r]);
  }

  lemma CommittedKeeps(w: World, r: nat)
    requires Inv(w) && CanCommit(w, r)
    ensures Inv(Committed(w, r))
  {
    CommittedReady(w, r);
    WriteKeeps(w, r, Committed(w, r).runs[r].phase, Committed(w, r).db);
  }

  lemma CommitOkKeeps(w: World, a: Action)
    requires Inv(w) && Enabled(w, a) && a.CommitOk?
    ensures Inv(Step(w, a))
  {
    CommittedKeeps(w, a.r);
  }

  lemma RollbackKeeps(w: World, a: Action)
    requires Inv(w) && Enabled(w, a) && a.Rollback?
    ensures Inv(Step(w, a))
  {
    var run := w.runs[a.r];
    PhaseKeeps(w, a.r, Step(w, a).runs[a.r].phase);
  }

  lemma FinishKeeps(w: World, a: Action)
    requires Inv(w) && Enabled(w, a) && a.Finish?
    ensures Inv(Step(w, a))
  {
    var run := w.runs[a.r];
    PhaseKeeps(w, a.r, Step(w, a).runs[a.r].phase);
  }

  lemma QueryErrorKeeps(w: World, a: Action)
    requires Inv(w) && Enabled(w, a) && a.QueryError?
    ensures Inv(Step(w, a))
  {
    var run := w.runs[a.r];
    PhaseKeeps(w, a.r, Step(w, a).runs[a.r].phase);
  }

  lemma UnlockKeeps(w: World, a: Action)
    requires Inv(w) && Enabled(w, a) && a.Unlock?
    ensures Inv(Step(w, a))
  {
  }

  lemma FailUnlockKeeps(w: World, a: Action)
    requires Inv(w) && Enabled(w, a) && a.FailUnlock?
    ensures Inv(Step(w, a))
  {
    var run := w.runs[a.r];
    PhaseKeeps(w, a.r, Step(w, a).runs[a.r].phase);
  }

  lemma ReleaseKeeps(w: World, a: Action)
    requires Inv(w) && Enabled(w, a) && a.Release?
    ensures Inv(Step(w, a))
  {
  }

  lemma LoseSessionKeeps(w: World, a: Action)
    requires Inv(w) && Enabled(w, a) && a.LoseSession?
    ensures Inv(Step(w, a))
  {
    if InFlight(w.runs[a.r]).Some? {
      NextAtMost(w.db, w.runs[a.r]);
    }
  }

  lemma CrashKeeps(w: World, a: Action)
    requires Inv(w) && Enabled(w, a) && a.Crash?
    ensures Inv(Step(w, a))
  {
    if w.runs[a.r].alive && InFlight(w.runs[a.r]).Some? {
      NextAtMost(w.db, w.runs[a.r]);
    }
  }

  lemma OrphanCommitKeeps(w: World, a: Action)
    requires Inv(w) && Enabled(w, a) && a.OrphanCommit?
    ensures Inv(Step(w, a))
  {
    var tx := w.orphans[a.session].inFlight.value;
    CommitTruthful(w.db, tx.0, tx.1);
  }

  lemma ReapKeeps(w: World, a: Action)
    requires Inv(w) && Enabled(w, a) && a.Reap?
    ensures Inv(Step(w, a))
  {
  }
}
