/**
 The decisions of src/lib/db/migrate-runner.ts and one run of it against a database.

 A migration's SQL is one atomic effect; the tables the branch-era check looks at and the marker rows
 are the only part of that effect the runner can observe. Every query may fail.
 */
module MigrationRules {
  import opened JsText
  import opened Numerals
  import opened Options
  import opened VersionSets

  datatype PendingMigration = PendingMigration(version: int, file: string)

  /** What one file's SQL does to the tables the runner looks at. */
  datatype Sql = Sql(creates: set<string>, markerRows: seq<string>)

  /** A build: the names in its migrations directory and the readable files among them. */
  datatype Build = Build(names: seq<string>, sql: map<string, Sql>)

  /**
   The database: visible tables, marker rows, schema_version (if it exists yet) and, as history, the
   files whose SQL was committed, in commit order. The ledger holds numbers only; the history tells apart
   two files that carry the same number.
   */
  datatype Db = Db(
    tables: set<string>,
    marker: seq<string>,
    hasLedger: bool,
    ledger: set<int>,
    effects: seq<PendingMigration>)

  // ---------------------------------------------------------------- listMigrationFiles

  predicate IsMigrationName(f: string) {
    && |f| >= 4 && f[|f| - 4..] == ".sql"
    && IsDigit(f[0]) && IsDigit(f[1]) && IsDigit(f[2]) && f[3] == '_'
  }

  function VersionOf(f: string): int
    requires IsMigrationName(f)
  {
    100 * (f[0] as int - '0' as int) + 10 * (f[1] as int - '0' as int) + (f[2] as int - '0' as int)
  }

  /** A number in three digits at least. */
  function Padded(n: nat): string {
    if n < 10 then "00" + Decimal(n) else if n < 100 then "0" + Decimal(n) else Decimal(n)
  }

  /** A file's version is the number its first three characters print, and no two prefixes name one number. */
  lemma VersionIsPrefix(f: string)
    requires IsMigrationName(f)
    ensures 0 <= VersionOf(f) <= 999 && Padded(VersionOf(f)) == f[..3]
  {
    var a, b, c := f[0] as int - '0' as int, f[1] as int - '0' as int, f[2] as int - '0' as int;
    var v := VersionOf(f);
    assert v == 100 * a + 10 * b + c && f[..3] == [f[0], f[1], f[2]];
    assert v / 10 == 10 * a + b && v % 10 == c && (v / 10) / 10 == a && (v / 10) % 10 == b;
    assert Decimal(a) == [f[0]] && (a == 0 ==> Decimal(b) == [f[1]]) && (a == 0 && b == 0 ==> Decimal(c) == [f[2]]);
    assert a > 0 ==> Decimal(v / 10) == Decimal(a) + [f[1]];
    assert v >= 10 ==> Decimal(v) == Decimal(v / 10) + [f[2]];
  }

  function Insert(f: string, sorted: seq<string>): seq<string> {
    if sorted == [] || !Before(sorted[0], f) then [f] + sorted
    else [sorted[0]] + Insert(f, sorted[1..])
  }

  function Sorted(names: seq<string>): seq<string> {
    if names == [] then [] else Insert(names[0], Sorted(names[1..]))
  }

  function Matching(names: seq<string>): (r: seq<string>)
    ensures forall f | f in r :: IsMigrationName(f)
  {
    if names == [] then []
    else if IsMigrationName(names[0]) then [names[0]] + Matching(names[1..])
    else Matching(names[1..])
  }

  function Parsed(files: seq<string>): (r: seq<PendingMigration>)
    requires forall f | f in files :: IsMigrationName(f)
    ensures |r| == |files|
    ensures forall i | 0 <= i < |r| :: r[i] == PendingMigration(VersionOf(files[i]), files[i])
  {
    seq(|files|, i requires 0 <= i < |files| => PendingMigration(VersionOf(files[i]), files[i]))
  }

  lemma {:induction false} InsertMembers(f: string, sorted: seq<string>)
    ensures multiset(Insert(f, sorted)) == multiset(sorted) + multiset{f}
    decreases |sorted|
  {
    if !(sorted == [] || !Before(sorted[0], f)) {
      InsertMembers(f, sorted[1..]);
      assert sorted == [sorted[0]] + sorted[1..];
    }
  }

  lemma {:induction false} SortedMembers(names: seq<string>)
    ensures multiset(Sorted(names)) == multiset(names)
    decreases |names|
  {
    if names != [] {
      SortedMembers(names[1..]);
      InsertMembers(names[0], Sorted(names[1..]));
      assert names == [names[0]] + names[1..];
    }
  }

  lemma SameMembers(names: seq<string>, f: string)
    ensures f in Sorted(names) <==> f in names
  {
    SortedMembers(names);
    assert f in multiset(Sorted(names)) <==> f in multiset(names);
  }

  function ListMigrationFiles(names: seq<string>): seq<PendingMigration> {
    var sorted := Sorted(Matching(names));
    assert forall f | f in sorted :: IsMigrationName(f) by {
      forall f | f in sorted ensures IsMigrationName(f) { SameMembers(Matching(names), f); }
    }
    Parsed(sorted)
  }

  predicate Ascending(files: seq<PendingMigration>) {
    forall i, j | 0 <= i < j < |files| :: files[i].version <= files[j].version
  }

  /** Three leading digits compare as text exactly as they compare as numbers. */
  lemma TextOrderIsVersionOrder(a: string, b: string)
    requires IsMigrationName(a) && IsMigrationName(b)
    ensures Before(a, b) ==> VersionOf(a) <= VersionOf(b)
    ensures VersionOf(a) < VersionOf(b) ==> Before(a, b)
  {
    assert Before(a, b) == (a[0] < b[0] || (a[0] == b[0] && Before(a[1..], b[1..])));
    assert Before(a[1..], b[1..]) == (a[1] < b[1] || (a[1] == b[1] && Before(a[1..][1..], b[1..][1..])));
    assert Before(a[1..][1..], b[1..][1..])
        == (a[2] < b[2] || (a[2] == b[2] && Before(a[1..][1..][1..], b[1..][1..][1..])));
  }

  predicate VersionsAscend(files: seq<string>) {
    && (forall f | f in files :: IsMigrationName(f))
    && (forall i, j | 0 <= i < j < |files| :: VersionOf(files[i]) <= VersionOf(files[j]))
  }

  lemma {:induction false} InsertAscends(f: string, sorted: seq<string>)
    requires IsMigrationName(f) && VersionsAscend(sorted)
    ensures VersionsAscend(Insert(f, sorted))
    ensures Insert(f, sorted) != []
    ensures Insert(f, sorted)[0] == f || (sorted != [] && Insert(f, sorted)[0] == sorted[0])
    decreases |sorted|
  {
    if sorted != [] {
      TextOrderIsVersionOrder(sorted[0], f);
      if Before(sorted[0], f) {
        InsertAscends(f, sorted[1..]);
      }
    }
  }

  lemma {:induction false} SortedAscends(files: seq<string>)
    requires forall f | f in files :: IsMigrationName(f)
    ensures VersionsAscend(Sorted(files))
    decreases |files|
  {
    if files != [] {
      SortedAscends(files[1..]);
      InsertAscends(files[0], Sorted(files[1..]));
    }
  }

  lemma {:induction false} MatchingMembers(names: seq<string>, f: string)
    ensures f in Matching(names) <==> f in names && IsMigrationName(f)
    decreases |names|
  {
    if names != [] {
      MatchingMembers(names[1..], f);
    }
  }

  /** The directory listing: exactly the matching names, with their numbers, in ascending order. */
  lemma ListingAscends(names: seq<string>)
    ensures Ascending(ListMigrationFiles(names))
    ensures forall m :: m in ListMigrationFiles(names) <==>
                        m.file in names && IsMigrationName(m.file) && m.version == VersionOf(m.file)
    ensures forall m | m in ListMigrationFiles(names) ::
              |m.file| >= 3 && 0 <= m.version <= 999 && Padded(m.version) == m.file[..3]
  {
    SortedAscends(Matching(names));
    var sorted := Sorted(Matching(names));
    var list := ListMigrationFiles(names);
    forall m: PendingMigration
      ensures m in list <==> m.file in names && IsMigrationName(m.file) && m.version == VersionOf(m.file)
    {
      SameMembers(Matching(names), m.file);
      MatchingMembers(names, m.file);
      if m.file in sorted {
        var i :| 0 <= i < |sorted| && sorted[i] == m.file;
        assert list[i].file == m.file;
      }
    }
    forall m | m in list
      ensures |m.file| >= 3 && 0 <= m.version <= 999 && Padded(m.version) == m.file[..3]
    {
      VersionIsPrefix(m.file);
    }
  }

  // ---------------------------------------------------------------- the ledger

  function Newer(files: seq<PendingMigration>, version: int): (r: seq<PendingMigration>)
    ensures forall m :: m in r <==> m in files && m.version > version
    ensures Ascending(files) ==> Ascending(r)
  {
    if files == [] then []
    else
      var rest := Newer(files[1..], version);
      if files[0].version <= version then rest
      else
        assert Ascending(files) ==> forall m | m in rest :: files[0].version <= m.version;
        [files[0]] + rest
  }

  function Skipped(files: seq<PendingMigration>, applied: set<int>, through: int): (r: seq<PendingMigration>)
    ensures forall m :: m in r <==> m in files && m.version < through && m.version !in applied
  {
    if files == [] then []
    else
      var rest := Skipped(files[1..], applied, through);
      if files[0].version < through && files[0].version !in applied then [files[0]] + rest else rest
  }

  function LedgerGaps(files: seq<PendingMigration>, applied: set<int>): seq<PendingMigration> {
    if applied == {} then [] else Skipped(files, applied, Max(applied))
  }

  function CurrentVersion(applied: set<int>): int {
    if applied == {} then 0 else Max(applied)
  }

  function PendingOf(files: seq<PendingMigration>, applied: set<int>): seq<PendingMigration> {
    Newer(files, CurrentVersion(applied))
  }

  // ---------------------------------------------------------------- the branch-era check

  const LINEAGE_TABLES: set<string> :=
    {"schema_migration_files", "schema_migration_recovery_files", "schema_migration_baseline"}
  const MARKER_TABLE := "lighter_schema_marker"
  const MARKER_LINEAGE := "main-2026-09"

  predicate IsLighterTable(t: string) {
    "lighter_" <= t
  }

  datatype BranchEraReason = LineageTables | UnmarkedLighterTables | UnexpectedMarker

  function BranchEra(db: Db): Option<BranchEraReason> {
    if exists t :: t in db.tables && t in LINEAGE_TABLES then Some(LineageTables)
    else if forall t | t in db.tables :: !IsLighterTable(t) then None
    else if MARKER_TABLE !in db.tables then Some(UnmarkedLighterTables)
    else if db.marker != [MARKER_LINEAGE] then Some(UnexpectedMarker)
    else None
  }

  // ---------------------------------------------------------------- effects on the database

  function EnsureTable(db: Db): Db {
    db.(hasLedger := true)
  }

  /** The committed transaction of one file: its SQL and its ledger row together. */
  function Commit(db: Db, m: PendingMigration, sql: Sql): Db {
    db.(tables := db.tables + sql.creates,
        marker := db.marker + sql.markerRows,
        ledger := db.ledger + {m.version},
        effects := db.effects + [m])
  }

  function Versions(files: seq<PendingMigration>): (r: seq<int>)
    ensures |r| == |files|
  {
    seq(|files|, i requires 0 <= i < |files| => files[i].version)
  }

  predicate StrictlyAscending(s: seq<int>) {
    forall i, j | 0 <= i < j < |s| :: s[i] < s[j]
  }

  /** The ledger names exactly the numbers of the committed files, and those ran in ascending order. */
  ghost predicate LedgerTruthful(db: Db) {
    && (forall v :: v in db.ledger <==> v in Versions(db.effects))
    && StrictlyAscending(Versions(db.effects))
    && (!db.hasLedger ==> db.ledger == {})
  }

  predicate Readable(build: Build, pending: seq<PendingMigration>, k: nat) {
    k <= |pending| && forall i | 0 <= i < k :: pending[i].file in build.sql
  }

  /** The database after the first k pending files were committed. */
  function CommitFirst(db: Db, build: Build, pending: seq<PendingMigration>, k: nat): Db
    requires Readable(build, pending, k)
  {
    if k == 0 then db
    else Commit(CommitFirst(db, build, pending, k - 1), pending[k - 1], build.sql[pending[k - 1].file])
  }

  function Names(pending: seq<PendingMigration>): (r: seq<string>)
    ensures |r| == |pending|
  {
    seq(|pending|, i requires 0 <= i < |pending| => pending[i].file)
  }

  datatype Outcome =
    | Succeeded(files: seq<string>)
    | RefusedBranchEra(reason: BranchEraReason)
    | RefusedGap(missing: seq<PendingMigration>, through: int)
    | FailedAt(migration: PendingMigration)
    | Errored

  function Files(build: Build): seq<PendingMigration> {
    ListMigrationFiles(build.names)
  }

  function Gaps(db: Db, build: Build): seq<PendingMigration> {
    LedgerGaps(Files(build), db.ledger)
  }

  function Pending(db: Db, build: Build): seq<PendingMigration> {
    PendingOf(Files(build), db.ledger)
  }

  predicate Distinct(pending: seq<PendingMigration>, k: nat) {
    k <= |pending| && forall i, j | 0 <= i < j < k :: pending[i].version != pending[j].version
  }

  /** Exactly the first k pending files were committed, no number twice. */
  ghost predicate Applied(before: Db, build: Build, pending: seq<PendingMigration>, k: nat, db: Db) {
    Readable(build, pending, k) && Distinct(pending, k) && db == CommitFirst(before, build, pending, k)
  }

  /** The run got past both refusals and committed exactly the first k pending files. */
  ghost predicate Progressed(base: Db, build: Build, k: nat, db: Db) {
    && BranchEra(base).None? && Gaps(base, build) == []
    && Applied(EnsureTable(base), build, Pending(base, build), k, db)
  }

  /** What one run that found the database as base may leave behind, by its outcome. */
  ghost predicate RunEffect(base: Db, build: Build, outcome: Outcome, db: Db) {
    match outcome
    case RefusedBranchEra(reason) => BranchEra(base) == Some(reason) && db == base
    case RefusedGap(missing, through) =>
      && BranchEra(base).None? && missing == Gaps(base, build) != []
      && base.ledger != {} && through == Max(base.ledger)
      && db == EnsureTable(base)
    case Succeeded(files) =>
      && Progressed(base, build, |Pending(base, build)|, db)
      && files == Names(Pending(base, build))
    case FailedAt(m) =>
      exists k | 0 <= k < |Pending(base, build)| ::
        Pending(base, build)[k] == m && Progressed(base, build, k, db)
    case Errored =>
      || db == base
      || (BranchEra(base).None? && db == EnsureTable(base))
      || exists k | 0 <= k < |Pending(base, build)| :: Progressed(base, build, k, db)
  }

  // ---------------------------------------------------------------- what a run means

  predicate HasFile(build: Build, version: int) {
    exists m | m in Files(build) :: m.version == version
  }

  lemma {:induction false} CommitFirstLedger(db: Db, build: Build, pending: seq<PendingMigration>, k: nat)
    requires Readable(build, pending, k)
    ensures CommitFirst(db, build, pending, k).ledger == db.ledger + (set i | 0 <= i < k :: pending[i].version)
    ensures CommitFirst(db, build, pending, k).hasLedger == db.hasLedger
    decreases k
  {
    if k > 0 {
      CommitFirstLedger(db, build, pending, k - 1);
      assert (set i | 0 <= i < k :: pending[i].version)
          == (set i | 0 <= i < k - 1 :: pending[i].version) + {pending[k - 1].version};
    }
  }

  lemma AppliedNext(before: Db, build: Build, pending: seq<PendingMigration>, k: nat, db: Db)
    requires Applied(before, build, pending, k, db)
    requires k < |pending| && pending[k].file in build.sql && pending[k].version !in db.ledger
    ensures Applied(before, build, pending, k + 1, Commit(db, pending[k], build.sql[pending[k].file]))
  {
    CommitFirstLedger(before, build, pending, k);
  }

  lemma VersionsNonNegative(build: Build, m: PendingMigration)
    requires m in Files(build)
    ensures 0 <= m.version <= 999
  {
    ListingAscends(build.names);
  }

  /** A file no gap check missed and the listing holds is pending, or recorded already. */
  lemma FileCovered(base: Db, build: Build, m: PendingMigration)
    requires m in Files(build) && Gaps(base, build) == [] && !(base.ledger == {} && m.version == 0)
    ensures m.version in base.ledger || m in Pending(base, build)
  {
    VersionsNonNegative(build, m);
    assert base.ledger != {} ==>
        (m in Gaps(base, build) <==> m.version < Max(base.ledger) && m.version !in base.ledger);
    assert m.version > CurrentVersion(base.ledger) ==> m in Pending(base, build);
  }

  lemma {:induction false} CommitFirstEffects(db: Db, build: Build, pending: seq<PendingMigration>, k: nat)
    requires Readable(build, pending, k)
    ensures CommitFirst(db, build, pending, k).effects == db.effects + pending[..k]
    decreases k
  {
    if k > 0 {
      CommitFirstEffects(db, build, pending, k - 1);
      assert pending[..k] == pending[..k - 1] + [pending[k - 1]];
    } else {
      assert db.effects + pending[..0] == db.effects;
    }
  }

  lemma CommitTruthful(db: Db, m: PendingMigration, sql: Sql)
    requires LedgerTruthful(db) && db.hasLedger && m.version !in db.ledger
    requires forall v | v in db.ledger :: v <= m.version
    ensures LedgerTruthful(Commit(db, m, sql))
  {
    assert Versions(db.effects + [m]) == Versions(db.effects) + [m.version];
    var before := Versions(db.effects);
    forall i | 0 <= i < |before| ensures before[i] < m.version {
      assert before[i] in before;
    }
  }

  /** The pending numbers ascend above the ledger. */
  lemma PendingAbove(db: Db, build: Build)
    ensures Ascending(Pending(db, build))
    ensures forall i, v | 0 <= i < |Pending(db, build)| && v in db.ledger :: v < Pending(db, build)[i].version
  {
    ListingAscends(build.names);
    var pending := Pending(db, build);
    forall i, v | 0 <= i < |pending| && v in db.ledger
      ensures v < pending[i].version
    {
      assert pending[i] in pending;
    }
  }

  /** The next pending file of a run that committed k: above everything recorded, and new if distinct. */
  lemma NextAbove(base: Db, build: Build, k: nat, db: Db)
    requires k < |Pending(base, build)| && Applied(EnsureTable(base), build, Pending(base, build), k, db)
    ensures db.hasLedger && forall v | v in db.ledger :: v <= Pending(base, build)[k].version
    ensures Distinct(Pending(base, build), k + 1) ==> Pending(base, build)[k].version !in db.ledger
  {
    PendingAbove(base, build);
    CommitFirstLedger(EnsureTable(base), build, Pending(base, build), k);
  }

  /** Pending files stand above the ledger they are pending for. */
  predicate StandsAbove(pending: seq<PendingMigration>, ledger: set<int>) {
    Ascending(pending) && forall i, v | 0 <= i < |pending| && v in ledger :: v < pending[i].version
  }

  lemma NextTruthful(start: Db, build: Build, pending: seq<PendingMigration>, k: nat, db: Db, sql: Sql)
    requires StandsAbove(pending, start.ledger) && start.hasLedger
    requires Applied(start, build, pending, k, db) && k < |pending| && Distinct(pending, k + 1) && LedgerTruthful(db)
    ensures LedgerTruthful(Commit(db, pending[k], sql))
  {
    CommitFirstLedger(start, build, pending, k);
    CommitTruthful(db, pending[k], sql);
  }

  /** However far a run got, the database it leaves tells the truth if the one it found did. */
  lemma {:induction false} AppliedTruthful(start: Db, build: Build, pending: seq<PendingMigration>, k: nat, db: Db)
    requires StandsAbove(pending, start.ledger) && start.hasLedger && LedgerTruthful(start)
    requires Applied(start, build, pending, k, db)
    ensures LedgerTruthful(db)
    decreases k
  {
    if k > 0 {
      var m := pending[k - 1];
      var before := CommitFirst(start, build, pending, k - 1);
      assert db == Commit(before, m, build.sql[m.file]);
      AppliedTruthful(start, build, pending, k - 1, before);
      NextTruthful(start, build, pending, k - 1, before, build.sql[m.file]);
    }
  }

  // ---------------------------------------------------------------- files that share a number

  /** No two files of the directory carry the same number. */
  ghost predicate OneFilePerNumber(build: Build) {
    forall m, n | m in Files(build) && n in Files(build) && m.version == n.version :: m == n
  }

  /** A recorded number hides every file that carries it: such a file is neither pending nor a gap. */
  lemma RecordedNumberHides(db: Db, build: Build, m: PendingMigration)
    requires m.version in db.ledger
    ensures m !in Pending(db, build) && m !in Gaps(db, build)
  {
  }

  lemma TruthfulVersions(db: Db, m: PendingMigration, n: PendingMigration)
    requires LedgerTruthful(db) && m in db.effects && n in db.effects && m.version == n.version
    ensures m == n
  {
    var i :| 0 <= i < |db.effects| && db.effects[i] == m;
    var j :| 0 <= j < |db.effects| && db.effects[j] == n;
    var versions := Versions(db.effects);
    assert versions[i] == versions[j];
  }

  lemma EffectTruthful(base: Db, build: Build, outcome: Outcome, db: Db)
    requires LedgerTruthful(base) && RunEffect(base, build, outcome, db)
    ensures LedgerTruthful(db)
  {
    if k: nat :| Progressed(base, build, k, db) {
      PendingAbove(base, build);
      AppliedTruthful(EnsureTable(base), build, Pending(base, build), k, db);
    }
  }

  /**
   Pending files that share a number are never all applied: the ledger's primary key admits one, so the run
   stops at the other, and of two files with one number only one has ever run.
   */
  lemma SharedNumberStops(base: Db, build: Build, outcome: Outcome, db: Db, m: PendingMigration, n: PendingMigration)
    requires LedgerTruthful(base) && RunEffect(base, build, outcome, db)
    requires m != n && m.version == n.version
    ensures m in Pending(base, build) && n in Pending(base, build) ==> !outcome.Succeeded?
    ensures !(m in db.effects && n in db.effects)
  {
    EffectTruthful(base, build, outcome, db);
    if m in db.effects && n in db.effects {
      TruthfulVersions(db, m, n);
    }
    var pending := Pending(base, build);
    if m in pending && n in pending {
      var i :| 0 <= i < |pending| && pending[i] == m;
      var j :| 0 <= j < |pending| && pending[j] == n;
      assert !Distinct(pending, |pending|) by {
        assert pending[i].version == pending[j].version && i != j;
      }
    }
  }

  // ---------------------------------------------------------------- what success means

  /** The database already ran a different file under this number. */
  ghost predicate Displaced(base: Db, m: PendingMigration) {
    exists e | e in base.effects :: e.version == m.version && e != m
  }

  /** The comparison with the initial version 0 never selects a version-0 file. */
  predicate Overlooked(base: Db, m: PendingMigration) {
    base.ledger == {} && m.version == 0
  }

  lemma SuccessRuns(base: Db, build: Build, files: seq<string>, db: Db, m: PendingMigration)
    requires LedgerTruthful(base) && RunEffect(base, build, Succeeded(files), db) && m in Files(build)
    ensures m in db.effects <==> !Displaced(base, m) && !Overlooked(base, m)
  {
    var pending := Pending(base, build);
    CommitFirstEffects(EnsureTable(base), build, pending, |pending|);
    assert pending[..|pending|] == pending && db.effects == base.effects + pending;
    assert m in db.effects <==> m in base.effects || m in pending;
    if m.version in base.ledger {
      RecordedNumber(base, m);
      RecordedNumberHides(base, build, m);
    } else if !Overlooked(base, m) {
      FileCovered(base, build, m);
      NotRecorded(base, m);
    } else {
      NotRecorded(base, m);
    }
  }

  lemma RecordedNumber(db: Db, m: PendingMigration)
    requires LedgerTruthful(db) && m.version in db.ledger
    ensures m in db.effects <==> !Displaced(db, m)
  {
    var versions := Versions(db.effects);
    var i :| 0 <= i < |versions| && versions[i] == m.version;
    assert db.effects[i] in db.effects;
    if m in db.effects {
      forall e | e in db.effects && e.version == m.version ensures e == m {
        TruthfulVersions(db, e, m);
      }
    }
  }

  lemma NotRecorded(db: Db, m: PendingMigration)
    requires LedgerTruthful(db) && m.version !in db.ledger
    ensures m !in db.effects && !Displaced(db, m)
  {
    forall e | e in db.effects ensures e.version != m.version {
      var i :| 0 <= i < |db.effects| && db.effects[i] == e;
      assert Versions(db.effects)[i] == e.version;
    }
  }

  /**
   After a success every file of the directory has run, but for two kinds the run passes over in silence:
   a file whose number the database recorded for another file, and a version-0 file on an empty ledger.
   */
  lemma SuccessCoversDirectory(base: Db, build: Build, files: seq<string>, db: Db)
    requires LedgerTruthful(base) && RunEffect(base, build, Succeeded(files), db)
    ensures (forall m | m in Files(build) :: m in db.effects)
            <==> (forall m | m in Files(build) :: !Displaced(base, m) && !Overlooked(base, m))
  {
    forall m | m in Files(build)
      ensures m in db.effects <==> !Displaced(base, m) && !Overlooked(base, m)
    {
      SuccessRuns(base, build, files, db, m);
    }
  }

  /** Every file the database ran under a number of the directory is that directory's. */
  ghost predicate RanFrom(base: Db, build: Build) {
    forall e | e in base.effects && HasFile(build, e.version) :: e in Files(build)
  }

  /**
   On a database that ran this directory's files only, success means that every file has run if and only if
   no two files share a number and no version-0 file met an empty ledger.
   */
  lemma SuccessMeansDistinct(base: Db, build: Build, files: seq<string>, db: Db)
    requires LedgerTruthful(base) && RanFrom(base, build) && RunEffect(base, build, Succeeded(files), db)
    ensures (forall m | m in Files(build) :: m in db.effects)
            <==> OneFilePerNumber(build) && !(base.ledger == {} && HasFile(build, 0))
  {
    SuccessCoversDirectory(base, build, files, db);
    if forall m | m in Files(build) :: m in db.effects {
      EffectTruthful(base, build, Succeeded(files), db);
      forall m, n | m in Files(build) && n in Files(build) && m.version == n.version
        ensures m == n
      {
        TruthfulVersions(db, m, n);
      }
    }
    if OneFilePerNumber(build) {
      NoneDisplaced(base, build);
    }
  }

  lemma NoneDisplaced(base: Db, build: Build)
    requires RanFrom(base, build) && OneFilePerNumber(build)
    ensures forall m | m in Files(build) :: !Displaced(base, m)
  {
    forall m, e | m in Files(build) && e in base.effects && e.version == m.version
      ensures e == m
    {
      assert HasFile(build, e.version);
    }
  }

  lemma TwoDistinct(names: seq<string>, sorted: seq<string>)
    requires |names| == 2 && names[0] != names[1] && multiset(sorted) == multiset(names)
    ensures |sorted| == 2 && sorted[0] != sorted[1]
  {
    assert |sorted| == |multiset(sorted)|;
    assert names == [names[0], names[1]] && sorted == [sorted[0], sorted[1]];
    assert multiset(names)[sorted[0]] <= 1;
  }

  lemma TwoSorted(names: seq<string>)
    requires |names| == 2 && names[0] != names[1]
    ensures var sorted := Sorted(names);
            |sorted| == 2 && sorted[0] != sorted[1] && sorted[0] in names && sorted[1] in names
  {
    SortedMembers(names);
    TwoDistinct(names, Sorted(names));
    SameMembers(names, Sorted(names)[0]);
    SameMembers(names, Sorted(names)[1]);
  }

  lemma TwoMatching(names: seq<string>)
    requires |names| == 2 && IsMigrationName(names[0]) && IsMigrationName(names[1])
    ensures Matching(names) == names
  {
    assert Matching(names[1..]) == [names[1]] + Matching(names[1..][1..]);
    assert names == [names[0]] + [names[1]];
  }

  /** A directory of two files with one number. */
  predicate Twins(build: Build) {
    && |build.names| == 2 && build.names[0] != build.names[1]
    && IsMigrationName(build.names[0]) && IsMigrationName(build.names[1])
    && VersionOf(build.names[0]) == VersionOf(build.names[1])
    && build.names[0] in build.sql && build.names[1] in build.sql
  }

  lemma TwinFiles(build: Build)
    requires Twins(build)
    ensures var files := Files(build);
            && |files| == 2 && files[0] != files[1]
            && (forall i | 0 <= i < 2 :: files[i].file in build.sql && files[i].version == VersionOf(build.names[0]))
  {
    TwoMatching(build.names);
    TwoSorted(build.names);
  }

  /**
   A directory with two files of one number on a fresh database: its first run stops at the second file, and
   the next run of the same build reports success although that file has not run; it never will, because the
   recorded number hides it (RecordedNumberHides).
   */
  lemma SecondFileForgotten(start: Db, build: Build)
    requires LedgerTruthful(start) && start.ledger == {} && BranchEra(start).None?
    requires Twins(build) && VersionOf(build.names[0]) > 0
    ensures |Files(build)| == 2 && Files(build)[0].file in build.sql
    ensures var first, second := Files(build)[0], Files(build)[1];
            var db := Commit(EnsureTable(start), first, build.sql[first.file]);
            && RunEffect(start, build, FailedAt(second), db)
            && (BranchEra(db).None? ==> RunEffect(db, build, Succeeded([]), db))
            && first != second && second !in db.effects
  {
    TwinFiles(build);
    var files := Files(build);
    var first, second := files[0], files[1];
    var db := Commit(EnsureTable(start), first, build.sql[first.file]);
    AllNewer(files, 0);
    assert CommitFirst(EnsureTable(start), build, files, 0) == EnsureTable(start);
    assert Applied(EnsureTable(start), build, files, 1, db);
    assert Progressed(start, build, 1, db);
    NotRecorded(start, second);
    RerunForgets(build, first, db);
  }

  lemma RerunForgets(build: Build, first: PendingMigration, db: Db)
    requires Twins(build) && first in Files(build) && db.ledger == {first.version} && db.hasLedger
    ensures BranchEra(db).None? ==> RunEffect(db, build, Succeeded([]), db)
  {
    TwinFiles(build);
    assert Max(db.ledger) == first.version;
    NoneNewer(Files(build), first.version, db.ledger);
    assert EnsureTable(db) == db && Applied(db, build, [], 0, db);
  }

  lemma {:induction false} AllNewer(files: seq<PendingMigration>, version: int)
    requires forall m | m in files :: m.version > version
    ensures Newer(files, version) == files
    decreases |files|
  {
    if files != [] {
      assert files[0] in files;
      AllNewer(files[1..], version);
    }
  }

  lemma NoneNewer(files: seq<PendingMigration>, version: int, applied: set<int>)
    requires forall m | m in files :: m.version == version
    ensures Newer(files, version) == [] && Skipped(files, applied, version) == []
  {
    EmptyWithoutMembers(Newer(files, version));
    EmptyWithoutMembers(Skipped(files, applied, version));
  }

  // ---------------------------------------------------------------- what is refused as branch-era

  predicate HasBranchLedger(db: Db) {
    || "schema_migration_files" in db.tables
    || "schema_migration_recovery_files" in db.tables
    || "schema_migration_baseline" in db.tables
  }

  predicate MarkerHolds(db: Db) {
    "lighter_schema_marker" in db.tables && db.marker == ["main-2026-09"]
  }

  /** No ledger of the branch, and lighter tables only beside the marker's one row. */
  predicate OnMain(db: Db) {
    !HasBranchLedger(db) && ((exists t | t in db.tables :: "lighter_" <= t) ==> MarkerHolds(db))
  }

  /**
   A run changes a database, or reports anything but a refusal or an error, only if that database is on main; off
   main the refusal names what was found, first the branch's ledgers, then the missing marker, then a wrong one.
   */
  lemma OnlyMainIsMigrated(base: Db, build: Build, outcome: Outcome, db: Db)
    requires RunEffect(base, build, outcome, db)
    ensures outcome.RefusedBranchEra? ==> !OnMain(base)
    ensures !OnMain(base) ==> db == base && (outcome.RefusedBranchEra? || outcome.Errored?)
    ensures outcome.RefusedBranchEra? ==>
              match outcome.reason
              case LineageTables => HasBranchLedger(base)
              case UnmarkedLighterTables => !HasBranchLedger(base) && "lighter_schema_marker" !in base.tables
              case UnexpectedMarker =>
                !HasBranchLedger(base) && "lighter_schema_marker" in base.tables && base.marker != ["main-2026-09"]
  {
    MainPassesCheck(base);
  }

  lemma MainPassesCheck(db: Db)
    ensures BranchEra(db).None? <==> OnMain(db)
  {
    assert MARKER_TABLE == "lighter_" + "schema_marker";
  }

  // ---------------------------------------------------------------- the same build again

  lemma EmptyWithoutMembers(files: seq<PendingMigration>)
    ensures files == [] || files[0] in files
  {
  }

  lemma NothingAbove(base: Db, build: Build, files: seq<string>, db: Db)
    requires RunEffect(base, build, Succeeded(files), db)
    ensures Pending(db, build) == []
  {
    var pending := Pending(base, build);
    CommitFirstLedger(EnsureTable(base), build, pending, |pending|);
    forall m | m in Files(build)
      ensures m.version <= CurrentVersion(db.ledger)
    {
      VersionsNonNegative(build, m);
      if m.version > CurrentVersion(base.ledger) {
        assert m in pending && m.version in db.ledger;
      } else if base.ledger != {} {
        assert Max(base.ledger) in db.ledger;
      } else if db.ledger != {} {
        var i :| 0 <= i < |pending| && pending[i].version == Max(db.ledger);
        assert pending[i] in pending;
      }
    }
    assert forall m :: m !in Pending(db, build);
    EmptyWithoutMembers(Pending(db, build));
  }

  /**
   Running the same build again right after a success has nothing to apply. It succeeds, unless the first
   success overlooked a version-0 file and applied something else: then that file is now a gap.
   */
  lemma RerunAppliesNothing(base: Db, build: Build, files: seq<string>, db: Db)
    requires RunEffect(base, build, Succeeded(files), db)
    ensures Pending(db, build) == []
    ensures Gaps(db, build) == [] <==> !(base.ledger == {} && HasFile(build, 0) && files != [])
    ensures BranchEra(db).None? ==> (RunEffect(db, build, Succeeded([]), db) <==> Gaps(db, build) == [])
  {
    NothingAbove(base, build, files, db);
    CommitFirstLedger(EnsureTable(base), build, Pending(base, build), |Pending(base, build)|);
    assert EnsureTable(db) == db && Applied(db, build, [], 0, db);
    if Gaps(db, build) != [] {
      GapAfterSuccess(base, build, files, db);
    } else if base.ledger == {} && HasFile(build, 0) && files != [] {
      ZeroIsGap(base, build, files, db);
    }
  }

  lemma GapAfterSuccess(base: Db, build: Build, files: seq<string>, db: Db)
    requires RunEffect(base, build, Succeeded(files), db) && Gaps(db, build) != []
    ensures base.ledger == {} && HasFile(build, 0) && files != []
  {
    var m := Gaps(db, build)[0];
    assert m in Gaps(db, build);
    SuccessRecords(base, build, files, db, m);
    CommitFirstLedger(EnsureTable(base), build, Pending(base, build), |Pending(base, build)|);
  }

  lemma ZeroIsGap(base: Db, build: Build, files: seq<string>, db: Db)
    requires RunEffect(base, build, Succeeded(files), db)
    requires base.ledger == {} && HasFile(build, 0) && files != []
    ensures Gaps(db, build) != []
  {
    var pending := Pending(base, build);
    CommitFirstLedger(EnsureTable(base), build, pending, |pending|);
    forall i | 0 <= i < |pending| ensures pending[i].version > 0 {
      assert pending[i] in pending;
    }
    assert pending[0].version in db.ledger && 0 !in db.ledger;
    var m :| m in Files(build) && m.version == 0;
    assert m in Gaps(db, build);
  }

  lemma SuccessRecords(base: Db, build: Build, files: seq<string>, db: Db, m: PendingMigration)
    requires RunEffect(base, build, Succeeded(files), db) && m in Files(build) && m.version !in db.ledger
    ensures base.ledger == {} && m.version == 0
  {
    CommitFirstLedger(EnsureTable(base), build, Pending(base, build), |Pending(base, build)|);
    if !(base.ledger == {} && m.version == 0) {
      FileCovered(base, build, m);
    }
  }

  // ---------------------------------------------------------------- one run, as the source runs it

  /** How one applyMigration ends: acknowledged, or rolled back after an error. */
  datatype ApplyFault = NoFault | RolledBack

  /** Which of the run's queries fail. */
  datatype Faults = Faults(lock: bool, timeout: bool, check: bool, ensure: bool, read: bool, unlock: bool,
                           apply: PendingMigration -> ApplyFault)

  /** A failure that is reported has a failing query, an unreadable file or a number already taken behind it. */
  ghost predicate Excused(base: Db, build: Build, faults: Faults, outcome: Outcome, db: Db) {
    match outcome
    case Errored =>
      || faults.timeout || faults.check || faults.ensure || faults.read
      || (BranchEra(base).None? && Gaps(base, build) == []
          && exists m | m in Pending(base, build) :: m.file !in build.sql)
    case FailedAt(m) => faults.apply(m) != NoFault || m.version in db.ledger
    case _ => true
  }

  predicate Quiet(faults: Faults, files: seq<PendingMigration>) {
    && !faults.timeout && !faults.check && !faults.ensure && !faults.read
    && forall m | m in files :: faults.apply(m) == NoFault
  }

  /**
   When no query fails a run succeeds exactly on a database on main without gaps, with every pending file readable
   and no number pending twice; then everything pending was committed.
   */
  lemma QuietRunSucceeds(base: Db, build: Build, faults: Faults, outcome: Outcome, db: Db)
    requires RunEffect(base, build, outcome, db) && Excused(base, build, faults, outcome, db)
    requires Quiet(faults, Pending(base, build))
    ensures var pending := Pending(base, build);
            && (outcome.Succeeded?
                <==> OnMain(base) && Gaps(base, build) == [] && Readable(build, pending, |pending|)
                     && Distinct(pending, |pending|))
            && (outcome.RefusedBranchEra? <==> !OnMain(base))
            && (outcome.RefusedGap? <==> OnMain(base) && Gaps(base, build) != [])
  {
    var pending := Pending(base, build);
    MainPassesCheck(base);
    if outcome.FailedAt? {
      var k :| 0 <= k < |pending| && pending[k] == outcome.migration && Progressed(base, build, k, db);
      assert pending[k] in pending;
      TakenTwice(base, build, k, db);
    } else if outcome.Errored? {
      UnreadablePending(build, pending);
    }
  }

  lemma TakenTwice(base: Db, build: Build, k: nat, db: Db)
    requires k < |Pending(base, build)| && Applied(EnsureTable(base), build, Pending(base, build), k, db)
    requires Pending(base, build)[k].version in db.ledger
    ensures !Distinct(Pending(base, build), |Pending(base, build)|)
  {
    NextAbove(base, build, k, db);
    assert !Distinct(Pending(base, build), k + 1);
  }

  lemma UnreadablePending(build: Build, pending: seq<PendingMigration>)
    requires exists m | m in pending :: m.file !in build.sql
    ensures !Readable(build, pending, |pending|)
  {
    var m :| m in pending && m.file !in build.sql;
    var i :| 0 <= i < |pending| && pending[i] == m;
  }

  class Database {
    var tables: set<string>
    var marker: seq<string>
    var hasLedger: bool
    var ledger: set<int>
    var effects: seq<PendingMigration>
    /** The advisory lock is free or held by the session of the run below. */
    var locked: bool

    ghost function View(): Db
      reads this
    {
      Db(tables, marker, hasLedger, ledger, effects)
    }

    /** BEGIN, the file's SQL, the ledger row, COMMIT; on any error ROLLBACK. */
    method ApplyMigration(m: PendingMigration, sql: Sql, fault: ApplyFault) returns (ok: bool)
      modifies this
      ensures ok == (fault == NoFault && m.version !in old(ledger))
      ensures View() == if ok then Commit(old(View()), m, sql) else old(View())
      ensures locked == old(locked)
    {
      if fault == RolledBack || m.version in ledger {
        return false;
      }
      tables := tables + sql.creates;
      marker := marker + sql.markerRows;
      ledger := ledger + {m.version};
      effects := effects + [m];
      return true;
    }

    method ApplyPending(build: Build, pending: seq<PendingMigration>, faults: Faults) returns (outcome: Outcome)
      modifies this
      ensures locked == old(locked)
      ensures match outcome
              case Succeeded(files) => files == Names(pending) && Applied(old(View()), build, pending, |pending|, View())
              case FailedAt(m) =>
                && (exists k | 0 <= k < |pending| :: pending[k] == m && Applied(old(View()), build, pending, k, View()))
                && (faults.apply(m) != NoFault || m.version in ledger)
              case Errored =>
                exists k | 0 <= k < |pending| ::
                  pending[k].file !in build.sql && Applied(old(View()), build, pending, k, View())
              case _ => false
    {
      var appliedFiles := [];
      for i := 0 to |pending|
        invariant Applied(old(View()), build, pending, i, View())
        invariant appliedFiles == Names(pending[..i])
        invariant locked == old(locked)
      {
        if pending[i].file !in build.sql {
          return Errored;
        }
        ghost var before := View();
        var ok := ApplyMigration(pending[i], build.sql[pending[i].file], faults.apply(pending[i]));
        if !ok {
          return FailedAt(pending[i]);
        }
        AppliedNext(old(View()), build, pending, i, before);
        appliedFiles := appliedFiles + [pending[i].file];
      }
      assert pending[..|pending|] == pending;
      return Succeeded(appliedFiles);
    }

    /** The body of the try block, with the lock held. */
    method RunLocked(build: Build, faults: Faults) returns (outcome: Outcome)
      modifies this
      ensures locked == old(locked)
      ensures RunEffect(old(View()), build, outcome, View())
      ensures Excused(old(View()), build, faults, outcome, View())
    {
      if faults.timeout || faults.check {
        return Errored;
      }
      var refusal := BranchEra(Db(tables, marker, hasLedger, ledger, effects));
      if refusal.Some? {
        return RefusedBranchEra(refusal.value);
      }
      if faults.ensure {
        return Errored;
      }
      hasLedger := true;
      if faults.read {
        return Errored;
      }
      var files := ListMigrationFiles(build.names);
      var gaps := LedgerGaps(files, ledger);
      if |gaps| > 0 {
        return RefusedGap(gaps, Max(ledger));
      }
      var pending := PendingOf(files, ledger);
      assert View() == EnsureTable(old(View())) && pending == Pending(old(View()), build);
      outcome := ApplyPending(build, pending, faults);
      if outcome.Succeeded? {
        assert Progressed(old(View()), build, |pending|, View());
      } else {
        ghost var k :| 0 <= k < |pending| && Applied(EnsureTable(old(View())), build, pending, k, View())
                 && (outcome.FailedAt? ==> outcome.migration == pending[k])
                 && (outcome.Errored? ==> pending[k].file !in build.sql);
        assert pending[k] in pending;
        assert Progressed(old(View()), build, k, View());
      }
    }

    /**
     One whole run on a session that does not hold the lock: connect, lock, run, unlock, release. The
     client goes back to the pool only when its session holds no lock; otherwise it is destroyed,
     which ends the session.
     */
    method RunMigrations(build: Build, faults: Faults) returns (outcome: Outcome, pooled: bool)
      requires !locked
      modifies this
      ensures RunEffect(old(View()), build, outcome, View())
      ensures faults.lock ==> outcome.Errored?
      ensures !faults.lock ==> Excused(old(View()), build, faults, outcome, View())
      ensures pooled ==> !locked
      ensures pooled == (faults.lock || !faults.unlock)
    {
      var lockAcquired := false;
      if faults.lock {
        outcome := Errored;
      } else {
        locked := true;
        lockAcquired := true;
        outcome := RunLocked(build, faults);
      }
      var unlockFailed := false;
      if lockAcquired {
        if faults.unlock {
          unlockFailed := true;
        } else {
          locked := false;
        }
      }
      pooled := !unlockFailed;
    }
  }
}
