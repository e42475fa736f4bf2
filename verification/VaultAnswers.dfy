/**
 What the caller of src/lib/local-secret-vault/lifecycle.ts learns from an answer, on the plain map that the file
 refines: each code has its own cause, and neither kind of write touches the other kind of key.
 */
module VaultAnswers {
  import opened Options
  import opened VaultFormat
  import opened VaultLifecycle
  import opened VaultRuns

  /** A file that is no vault, or holds none, is corrupt or from a newer build. */
  predicate Viewed(v: Plain) {
    v.Malformed? || v.Unreadable? ==> v.code in {Corrupt, Incompatible}
  }

  lemma EveryFileViewed(x: Build, disk: Option<Disk>, password: string)
    ensures Viewed(View(x, disk, password))
  {
    if disk.Some? {
      OuterCodes(disk.value);
      var file := ParseVaultFile(disk.value);
      if file.Ok? && ValidateEnvelope(file.value).Ok? {
        var text := Authenticated(x, file.value, password, ValidateEnvelope(file.value).value);
        if text.Some? {
          InnerCodes(x, text.value);
        }
      }
    }
  }

  predicate Readable(env: Env) {
    !env.readFails && !env.run.deriveFails && !env.run.decodeFails
  }

  predicate Edits(op: Op) {
    op.WriteKnown? || op.WriteExtra?
  }

  /** The write whose failure the caller is told of: the creating one, and the editing one once the vault is open. */
  predicate Told(v: Plain, op: Op, env: Env, w: Write) {
    || (w == env.first && v.Absent? && !op.Verify? && !op.Unlock?)
    || (w == env.second && Edits(op)
        && ((v.Absent? && WriteFault(env.first).None?) || (v.Holding? && Readable(env))))
  }

  /** A missing vault is only ever reported by an operation that does not create one, and always by those. */
  lemma MissingMeansAbsent(x: Build, v: Plain, op: Op, env: Env)
    requires Viewed(v)
    ensures Step(x, v, op, env).0 == Failed(Missing) <==> v.Absent? && (op.Verify? || op.Unlock?)
  {
  }

  /** An io failure is a file that could not be read, or one that could not be stored. */
  lemma IoMeansDisk(x: Build, v: Plain, op: Op, env: Env)
    requires Viewed(v)
    ensures Step(x, v, op, env).0 == Failed(Io)
       <==> || (!v.Absent? && env.readFails)
            || (exists w | w in {env.first, env.second} ::
                  Told(v, op, env, w) && !w.sealFails && !w.dirFails && w.store != Stored)
  {
  }

  /** A failure without a code of its own is an encryption or a directory that failed. */
  lemma UncaughtMeansWrite(x: Build, v: Plain, op: Op, env: Env)
    requires Viewed(v)
    ensures Step(x, v, op, env).0 == Failed(Uncaught)
       <==> exists w | w in {env.first, env.second} :: Told(v, op, env, w) && (w.sealFails || w.dirFails)
  {
  }

  /** A wrong password is reported by every operation alike, and only for a file that was read and derived. */
  lemma WrongPassword(x: Build, v: Plain, op: Op, env: Env)
    requires Viewed(v)
    ensures Step(x, v, op, env).0 == Failed(InvalidPassword) <==> v.Locked? && !env.readFails && !env.run.deriveFails
  {
  }

  /** Corrupt and incompatible are said of the file, once it was read, and of its contents, once they were decrypted. */
  lemma FileCodes(x: Build, v: Plain, op: Op, env: Env, code: Code)
    requires Viewed(v) && code in {Corrupt, Incompatible}
    ensures Step(x, v, op, env).0 == Failed(code)
       <==> (v == Malformed(code) && !env.readFails) || (v == Unreadable(code) && Readable(env))
  {
  }

  /** Unlocking answers as verifying does: a rewrite that fails does not show. */
  lemma UnlockAnswersAsVerify(x: Build, v: Plain, env: Env)
    ensures var verified, unlocked := Step(x, v, Verify, env).0, Step(x, v, Unlock, env).0;
            && (unlocked.Returned? <==> verified.Verified?)
            && (verified.Failed? ==> unlocked == verified)
            && (unlocked.Returned? ==> v.Holding? && unlocked.contents == Partition(x, v.m))
  {
  }

  predicate NeverWritesExtra(calls: seq<Call>) {
    forall i | 0 <= i < |calls| :: !calls[i].op.WriteExtra?
  }

  predicate NeverWritesKnown(calls: seq<Call>) {
    forall i | 0 <= i < |calls| :: !calls[i].op.WriteKnown?
  }

  /**
   A run that writes only known secrets leaves every unknown one as it was, and one that writes only unknown secrets
   leaves every known one, whatever names the updates carry.
   */
  lemma OtherKindSurvives(x: Build, v: Plain, calls: seq<Call>, k: string)
    requires Final(x, v, calls).Holding?
    ensures NeverWritesExtra(calls) && k !in x.known ==> Lookup(Final(x, v, calls).m, k) == Lookup(MapOf(v), k)
    ensures NeverWritesKnown(calls) && k in x.known ==> Lookup(Final(x, v, calls).m, k) == Lookup(MapOf(v), k)
  {
    if (NeverWritesExtra(calls) && k !in x.known) || (NeverWritesKnown(calls) && k in x.known) {
      forall i | 0 <= i < |calls| ensures !Touches(x, calls[i].op, k) {
        assert !calls[i].op.WriteExtra? || !calls[i].op.WriteKnown?;
      }
      UntouchedKeySurvives(x, v, calls, k);
    }
  }
}
