/** Any sequence of vault operations under one password is a run of the plain map. */
module VaultRuns {
  import opened Options
  import opened VaultFormat
  import opened VaultLifecycle

  datatype Call = Call(op: Op, env: Env)

  function After(x: Build, v: Plain, call: Call): Plain {
    Step(x, v, call.op, call.env).1
  }

  function Run(x: Build, v: Plain, calls: seq<Call>): (r: (seq<Outcome>, Plain))
    ensures |r.0| == |calls|
    decreases |calls|
  {
    if calls == [] then ([], v)
    else
      var rest := Run(x, After(x, v, calls[0]), calls[1..]);
      ([Step(x, v, calls[0].op, calls[0].env).0] + rest.0, rest.1)
  }

  function Final(x: Build, v: Plain, calls: seq<Call>): Plain {
    Run(x, v, calls).1
  }

  method Perform(vault: SecretVault, password: string, call: Call) returns (outcome: Outcome)
    requires vault.Valid() && Random(call.env)
    modifies vault
    ensures (outcome, vault.Plainly(password)) == Step(vault.x, old(vault.Plainly(password)), call.op, call.env)
    ensures !Usable(old(vault.Plainly(password))) ==> vault.disk == old(vault.disk)
    ensures outcome.Returned? && Quiet(call.env) ==> Strongest(vault.disk)
  {
    match call.op {
      case Create =>
        var r := vault.CreateSecretVault(password, call.env);
        outcome := Reply(r);
      case Unlock =>
        var r := vault.UnlockSecretVault(password, call.env);
        outcome := Reply(r);
      case Verify => outcome := vault.VerifySecretVaultPassword(password, call.env);
      case WriteKnown(updates) => outcome := vault.WriteSecretVaultSecrets(password, updates, call.env);
      case WriteExtra(updates) => outcome := vault.WriteSecretVaultExtraSecrets(password, updates, call.env);
    }
  }

  /** The file refines the plain map: from any file, through any calls, whatever fails. */
  method PerformAll(vault: SecretVault, password: string, calls: seq<Call>) returns (outcomes: seq<Outcome>)
    requires vault.Valid() && forall i | 0 <= i < |calls| :: Random(calls[i].env)
    modifies vault
    ensures (outcomes, vault.Plainly(password)) == Run(vault.x, old(vault.Plainly(password)), calls)
    ensures !Usable(old(vault.Plainly(password))) ==> vault.disk == old(vault.disk)
  {
    outcomes := [];
    ghost var v := vault.Plainly(password);
    for i := 0 to |calls|
      invariant (outcomes, vault.Plainly(password)) == Run(vault.x, v, calls[..i])
      invariant !Usable(v) ==> vault.disk == old(vault.disk)
    {
      var outcome := Perform(vault, password, calls[i]);
      outcomes := outcomes + [outcome];
      RunSplit(vault.x, v, calls[..i], [calls[i]]);
      RunOne(vault.x, Final(vault.x, v, calls[..i]), calls[i]);
      assert calls[..i + 1] == calls[..i] + [calls[i]];
    }
    assert calls[..|calls|] == calls;
  }

  lemma {:induction false} RunSplit(x: Build, v: Plain, a: seq<Call>, b: seq<Call>)
    ensures Run(x, v, a + b).0 == Run(x, v, a).0 + Run(x, Final(x, v, a), b).0
    ensures Final(x, v, a + b) == Final(x, Final(x, v, a), b)
    decreases |a|
  {
    if a == [] {
      assert a + b == b;
    } else {
      RunSplit(x, After(x, v, a[0]), a[1..], b);
      assert (a + b)[1..] == a[1..] + b;
    }
  }

  lemma RunOne(x: Build, v: Plain, call: Call)
    ensures Run(x, v, [call]).0 == [Step(x, v, call.op, call.env).0] && Final(x, v, [call]) == After(x, v, call)
  {
    assert [call][1..] == [];
  }

  // ---------------------------------------------------------------- keys

  predicate Touches(x: Build, op: Op, k: string) {
    (op.WriteKnown? || op.WriteExtra?) && k in op.updates && k in Governed(x, op)
  }

  /**
   A key that no call of the run writes reads as before, whatever else was written, created, upgraded
   or failed. Known-key writes touch no unknown key, so those survive every build that does not know them.
   */
  lemma {:induction false} UntouchedKeySurvives(x: Build, v: Plain, calls: seq<Call>, k: string)
    requires forall i | 0 <= i < |calls| :: !Touches(x, calls[i].op, k)
    requires Final(x, v, calls).Holding?
    ensures Lookup(Final(x, v, calls).m, k) == Lookup(MapOf(v), k)
    decreases |calls|
  {
    if calls != [] {
      var next := After(x, v, calls[0]);
      if next.Holding? {
      } else if next.Absent? {
        assert v.Absent?;
      } else {
        ShutStaysShut(x, next, calls[1..]);
      }
      UntouchedKeySurvives(x, next, calls[1..], k);
    }
  }

  /** The key that an assignment to an object drops is never stored by a run of calls. */
  lemma ProtoNeverStored(x: Build, v: Plain, calls: seq<Call>)
    requires v.Holding? ==> PROTO !in v.m
    requires Final(x, v, calls).Holding?
    ensures PROTO !in Final(x, v, calls).m
  {
    UntouchedKeySurvives(x, v, calls, PROTO);
  }

  /** The last successful write of a key is what it reads as, until the next. */
  lemma LastWriteStands(x: Build, v: Plain, before: seq<Call>, write: Call, after: seq<Call>, k: string)
    requires Touches(x, write.op, k)
    requires Step(x, Final(x, v, before), write.op, write.env).0.Returned?
    requires forall i | 0 <= i < |after| :: !Touches(x, after[i].op, k)
    requires Final(x, v, before + [write] + after).Holding?
    ensures var value := write.op.updates[k];
            Lookup(Final(x, v, before + [write] + after).m, k) == if Keeps(value) then value else None
  {
    RunSplit(x, v, before + [write], after);
    RunSplit(x, v, before, [write]);
    var written := After(x, Final(x, v, before), write);
    RunOne(x, Final(x, v, before), write);
    if !written.Holding? {
      ShutStaysShut(x, written, after);
    }
    UntouchedKeySurvives(x, written, after, k);
  }

  // ---------------------------------------------------------------- being shut out

  /** Under a wrong password, or on a file this build cannot read, every call fails and changes nothing. */
  lemma {:induction false} ShutStaysShut(x: Build, v: Plain, calls: seq<Call>)
    requires !Usable(v)
    ensures Final(x, v, calls) == v
    ensures forall i | 0 <= i < |calls| :: Run(x, v, calls).0[i].Failed?
    decreases |calls|
  {
    if calls != [] {
      ShutStaysShut(x, v, calls[1..]);
    }
  }

  /** Every map this call may write is within the size cap. */
  predicate StepFits(x: Build, v: Plain, op: Op) {
    && (v.Absent? && !op.Verify? && !op.Unlock? ==> Fits(x, map[]))
    && (v.Holding? && v.stale && !op.Verify? ==> Fits(x, v.m))
    && (op.WriteKnown? || op.WriteExtra? ==> Fits(x, Intended(x, op, MapOf(v))))
  }

  predicate RunFits(x: Build, v: Plain, calls: seq<Call>)
    decreases |calls|
  {
    calls == [] || (StepFits(x, v, calls[0].op) && RunFits(x, After(x, v, calls[0]), calls[1..]))
  }

  predicate Quiet(env: Env) {
    && !env.readFails && !env.run.deriveFails && !env.run.decodeFails
    && WriteFault(env.first).None? && WriteFault(env.second).None?
  }

  /** An oversized write is the only way to lose a vault: while contents fit, the password keeps opening it. */
  lemma {:induction false} FittingRunStaysUsable(x: Build, v: Plain, calls: seq<Call>)
    requires Usable(v) && RunFits(x, v, calls)
    ensures Usable(Final(x, v, calls))
    ensures forall i | 0 <= i < |calls| ::
              Run(x, v, calls).0[i].Failed? ==> Run(x, v, calls).0[i].code in {Missing, Io, Unavailable, Uncaught}
    decreases |calls|
  {
    if calls != [] {
      FittingRunStaysUsable(x, After(x, v, calls[0]), calls[1..]);
    }
  }

  /** One write over the cap reports success and leaves a file that every later call calls corrupt. */
  lemma OversizedWriteShuts(x: Build, v: Plain, write: Call, calls: seq<Call>)
    requires v.Holding? && !v.stale && (write.op.WriteKnown? || write.op.WriteExtra?) && Quiet(write.env)
    requires !Fits(x, Intended(x, write.op, v.m))
    ensures Step(x, v, write.op, write.env).0.Returned?
    ensures Final(x, v, [write] + calls) == Malformed(Corrupt)
  {
    assert ([write] + calls)[1..] == calls;
    ShutStaysShut(x, Malformed(Corrupt), calls);
  }

  // ---------------------------------------------------------------- the plain map

  function MapRun(x: Build, m: Secrets, calls: seq<Call>): Secrets
    decreases |calls|
  {
    if calls == [] then m else MapRun(x, Intended(x, calls[0].op, m), calls[1..])
  }

  lemma QuietStep(x: Build, v: Plain, call: Call)
    requires v.Holding? && StepFits(x, v, call.op) && Quiet(call.env)
    ensures After(x, v, call).Holding? && After(x, v, call).m == Intended(x, call.op, v.m)
    ensures Step(x, v, call.op, call.env).0
            == if call.op.Verify? then Verified else Returned(Partition(x, Intended(x, call.op, v.m)))
  {
  }

  /** Without failures and within the cap, the vault is the map its writes describe, and every call returns it. */
  lemma {:induction false} QuietRunIsPlainMap(x: Build, v: Plain, calls: seq<Call>)
    requires v.Holding? && RunFits(x, v, calls)
    requires forall i | 0 <= i < |calls| :: Quiet(calls[i].env)
    ensures Final(x, v, calls).Holding? && Final(x, v, calls).m == MapRun(x, v.m, calls)
    ensures forall i | 0 <= i < |calls| ::
              Run(x, v, calls).0[i]
              == if calls[i].op.Verify? then Verified else Returned(Partition(x, MapRun(x, v.m, calls[..i + 1])))
    decreases |calls|
  {
    if calls != [] {
      var next := After(x, v, calls[0]);
      QuietStep(x, v, calls[0]);
      QuietRunIsPlainMap(x, next, calls[1..]);
      forall i | 0 <= i < |calls|
        ensures Run(x, v, calls).0[i]
                == if calls[i].op.Verify? then Verified else Returned(Partition(x, MapRun(x, v.m, calls[..i + 1])))
      {
        assert calls[..i + 1][1..] == calls[1..][..i];
        if i > 0 {
          assert calls[i] == calls[1..][i - 1];
        }
      }
    }
  }
}
