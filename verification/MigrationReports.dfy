/**
 Why a run of src/lib/db/migrate-runner.ts failed, over every schedule of MigrationProtocol: a file is reported as
 failed only after its own transaction was rolled back, and an error only after a query failed or a file could not
 be read.
 */
module MigrationReports {
  import opened MigrationRules
  import opened MigrationProtocol

  /** What may happen to one run: a rollback, a failing query, a file of its directory that cannot be read. */
  datatype Mishaps = Mishaps(rollback: bool, query: bool, unreadable: bool)

  predicate Allows(may: Mishaps, r: nat, a: Action) {
    && (a == Rollback(r) ==> may.rollback)
    && (a == RefuseLock(r) || a == QueryError(r) ==> may.query)
    && (a.Connect? && a.r == r ==> may.unreadable || AllReadable(a.build))
  }

  predicate AllReadable(build: Build) {
    forall m | m in Files(build) :: m.file in build.sql
  }

  predicate Explained(may: Mishaps, outcome: Outcome) {
    match outcome
    case FailedAt(_) => may.rollback
    case Errored => may.query || may.unreadable
    case _ => true
  }

  predicate FromDirectory(run: Run, pending: seq<PendingMigration>) {
    forall m | m in pending :: m in Files(run.build)
  }

  predicate Sourced(may: Mishaps, run: Run) {
    && (may.unreadable || AllReadable(run.build))
    && match run.phase
       case Applying(pending, _) => FromDirectory(run, pending)
       case Committing(pending, _) => FromDirectory(run, pending)
       case Finishing(outcome, _) => Explained(may, outcome)
       case Releasing(outcome, _) => Explained(may, outcome)
       case Returned(outcome) => Explained(may, outcome)
       case _ => true
  }

  lemma StepSourced(may: Mishaps, w: World, a: Action, r: nat)
    requires r in w.runs ==> Sourced(may, w.runs[r])
    requires Enabled(w, a) && Allows(may, r, a)
    ensures r in Step(w, a).runs ==> Sourced(may, Step(w, a).runs[r])
  {
    if a == Plan(r) {
      assert FromDirectory(w.runs[r], Pending(w.db, w.runs[r].build));
    } else if a == Begin(r) {
      var run := w.runs[r];
      assert run.phase.pending[run.phase.next] in run.phase.pending;
    }
  }

  lemma {:induction false} ExecuteSourced(may: Mishaps, w: World, actions: seq<Action>, r: nat)
    requires r in w.runs ==> Sourced(may, w.runs[r])
    requires forall a | a in actions :: Allows(may, r, a)
    ensures r in Execute(w, actions).runs ==> Sourced(may, Execute(w, actions).runs[r])
    decreases |actions|
  {
    if actions != [] {
      assert actions[0] in actions && forall a | a in actions[1..] :: a in actions;
      if Enabled(w, actions[0]) {
        StepSourced(may, w, actions[0], r);
        ExecuteSourced(may, Step(w, actions[0]), actions[1..], r);
      } else {
        ExecuteSourced(may, w, actions[1..], r);
      }
    }
  }

  /**
   Over every schedule a failure has its own cause: no run reports a file as failed unless a transaction of its own was
   rolled back, and none reports an error unless it was refused the lock, one of its queries failed or a file of its
   directory could not be read.
   */
  lemma FailuresHaveCauses(w: World, actions: seq<Action>, r: nat)
    requires r !in w.runs
    requires r in Execute(w, actions).runs && Execute(w, actions).runs[r].phase.Returned?
    ensures match Execute(w, actions).runs[r].phase.outcome
            case FailedAt(_) => Rollback(r) in actions
            case Errored =>
              || RefuseLock(r) in actions || QueryError(r) in actions
              || exists a | a in actions && a.Connect? && a.r == r :: !AllReadable(a.build)
            case _ => true
  {
    var unreadable := exists a | a in actions && a.Connect? && a.r == r :: !AllReadable(a.build);
    var may := Mishaps(Rollback(r) in actions, RefuseLock(r) in actions || QueryError(r) in actions, unreadable);
    ExecuteSourced(may, w, actions, r);
  }
}
