/**
 The vault operations of src/lib/local-secret-vault/lifecycle.ts on one file, against a plain map from
 secret names to values. The environment chooses the random bytes and every failure.
 */
module VaultLifecycle {
  import opened Base64
  import opened Options
  import opened VaultFormat

  type Updates = map<string, Option<string>>

  /** A failed store may leave the old file, or the new one when only the final chmod failed. */
  datatype Store = Stored | NotStored | StoredThenFailed

  /** One encryption and atomic write. */
  datatype Write = Write(salt: Bytes, iv: Bytes, sealFails: bool, dirFails: bool, store: Store)

  /** What the environment does during one call: the first write creates or upgrades the file. */
  datatype Env = Env(readFails: bool, run: Runtime, first: Write, second: Write)

  datatype Outcome = Verified | Returned(contents: Contents) | Failed(code: Code)

  predicate Random(env: Env) {
    && |env.first.salt| == MIN_SALT_BYTES && |env.first.iv| == IV_BYTES
    && |env.second.salt| == MIN_SALT_BYTES && |env.second.iv| == IV_BYTES
  }

  // ---------------------------------------------------------------- the plain map

  /** What a file is under one password; a stale one still has older KDF parameters. */
  datatype Plain =
    | Absent
    | Malformed(code: Code)
    | Locked
    | Unreadable(code: Code)
    | Holding(m: Secrets, stale: bool)

  predicate Tidy(m: Secrets) {
    NoEmptyValue(m) && PROTO !in m
  }

  /** A file whose envelope and KDF parameters are in order. */
  function Inside(x: Build, file: VaultFile, password: string, e: Envelope): (v: Plain)
    ensures v.Holding? ==> Tidy(v.m)
  {
    var text := Authenticated(x, file, password, e);
    if text.None? then Locked
    else
      var contents := Opened(x, text.value);
      if contents.Err? then Unreadable(contents.error)
      else Holding(contents.value.secrets + contents.value.extraSecrets, NeedsKdfUpgrade(file))
  }

  function View(x: Build, disk: Option<Disk>, password: string): (v: Plain)
    ensures v.Holding? ==> Tidy(v.m)
  {
    if disk.None? then Absent
    else
      var file := ParseVaultFile(disk.value);
      if file.Err? then Malformed(file.error)
      else
        var envelope := ValidateEnvelope(file.value);
        if envelope.Err? || KdfFault(file.value.kdf).Some? then Malformed(Corrupt)
        else Inside(x, file.value, password, envelope.value)
  }

  /** The answer to a password: each failure at its own stage. */
  function Answer(x: Build, v: Plain, env: Env): Result<Contents, Code> {
    if v.Absent? then Err(Missing)
    else if env.readFails then Err(Io)
    else if v.Malformed? then Err(v.code)
    else if env.run.deriveFails then Err(Unavailable)
    else if v.Locked? then Err(InvalidPassword)
    else if env.run.decodeFails then Err(Unavailable)
    else if v.Unreadable? then Err(v.code)
    else Ok(Partition(x, v.m))
  }

  function WriteFault(w: Write): Option<Code> {
    if w.sealFails || w.dirFails then Some(Uncaught) else if w.store != Stored then Some(Io) else None
  }

  predicate Lands(w: Write) {
    !w.sealFails && !w.dirFails && w.store != NotStored
  }

  /** A written map can be read back unless it is over the size cap. */
  function Kept(x: Build, m: Secrets): Plain {
    if Fits(x, m) then Holding(m, false) else Malformed(Corrupt)
  }

  function AfterWrite(x: Build, v: Plain, m: Secrets, w: Write): Plain {
    if Lands(w) then Kept(x, m) else v
  }

  predicate Keeps(value: Option<string>) {
    value.Some? && value.value != ""
  }

  /** The keys in ks that are named by the updates are set, or removed by an empty or null value. */
  function Applied(m: Secrets, updates: Updates, ks: set<string>): Secrets {
    map k | k in m.Keys + updates.Keys && (if k in ks && k in updates then Keeps(updates[k]) else k in m)
      :: if k in ks && k in updates then updates[k].value else m[k]
  }

  datatype Op = Create | Unlock | Verify | WriteKnown(updates: Updates) | WriteExtra(updates: Updates)

  /** The keys an operation may change. */
  function Governed(x: Build, op: Op): set<string> {
    match op
    case WriteKnown(_) => x.known
    case WriteExtra(updates) => updates.Keys - x.known - {PROTO}
    case _ => {}
  }

  /** Absent, or readable under the password. */
  predicate Usable(v: Plain) {
    v.Absent? || v.Holding?
  }

  function MapOf(v: Plain): Secrets {
    if v.Holding? then v.m else map[]
  }

  function Intended(x: Build, op: Op, m: Secrets): Secrets {
    if op.WriteKnown? || op.WriteExtra? then Applied(m, op.updates, Governed(x, op)) else m
  }

  /** Opening the vault first: it is created empty when absent, and upgraded when stale. */
  function Open(x: Build, v: Plain, env: Env): (Result<Contents, Code>, Plain) {
    if v.Absent? then
      (if WriteFault(env.first).Some? then Err(WriteFault(env.first).value) else Ok(Partition(x, map[])),
       AfterWrite(x, v, map[], env.first))
    else Unlocked(x, v, env)
  }

  function Unlocked(x: Build, v: Plain, env: Env): (Result<Contents, Code>, Plain) {
    (Answer(x, v, env), if Answer(x, v, env).Ok? && v.stale then AfterWrite(x, v, v.m, env.first) else v)
  }

  function Reply(r: Result<Contents, Code>): Outcome {
    if r.Ok? then Returned(r.value) else Failed(r.error)
  }

  /** One operation on the plain map. */
  function Step(x: Build, v: Plain, op: Op, env: Env): (Outcome, Plain) {
    match op
    case Verify => (if Answer(x, v, env).Ok? then Verified else Failed(Answer(x, v, env).error), v)
    case Unlock => (Reply(Unlocked(x, v, env).0), Unlocked(x, v, env).1)
    case Create => (Reply(Open(x, v, env).0), Open(x, v, env).1)
    case _ =>
      var (start, now) := Open(x, v, env);
      if start.Err? then (Failed(start.error), now)
      else
        var next := Intended(x, op, MapOf(v));
        (if WriteFault(env.second).Some? then Failed(WriteFault(env.second).value) else Returned(Partition(x, next)),
         AfterWrite(x, now, next, env.second))
  }

  // ---------------------------------------------------------------- the view of the file

  lemma PartitionMerges(x: Build, m: Secrets)
    requires PROTO !in m
    ensures Typed(x, Partition(x, m)) && Merged(x, Partition(x, m)) == m && Known(x, m) + Unknown(x, m) == m
  {
  }

  lemma OpenedIsPartition(x: Build, text: Bytes)
    requires Opened(x, text).Ok?
    ensures var c := Opened(x, text).value; Partition(x, c.secrets + c.extraSecrets) == c
  {
    var c := Opened(x, text).value;
    assert Known(x, c.secrets + c.extraSecrets) == c.secrets;
    assert Unknown(x, c.secrets + c.extraSecrets) == c.extraSecrets;
  }

  lemma InsideAnswers(x: Build, file: VaultFile, password: string, e: Envelope, env: Env)
    requires !env.readFails
    ensures Answer(x, Inside(x, file, password, e), env) == Unsealed(x, file, password, env.run, e)
  {
    var text := Authenticated(x, file, password, e);
    if text.Some? && Opened(x, text.value).Ok? {
      OpenedIsPartition(x, text.value);
    }
  }

  lemma ViewAnswers(x: Build, disk: Disk, password: string, env: Env)
    requires !env.readFails
    ensures var file, v := ParseVaultFile(disk), View(x, Some(disk), password);
            && Answer(x, v, env) == (if file.Err? then Err(file.error) else Decrypted(x, file.value, password, env.run))
            && (v.Holding? ==> v.stale == NeedsKdfUpgrade(file.value))
  {
    var file := ParseVaultFile(disk);
    if file.Ok? {
      var envelope := ValidateEnvelope(file.value);
      EnvelopeSpelled(file.value, Envelope([], [], [], []));
      if envelope.Ok? && KdfFault(file.value.kdf).None? {
        InsideAnswers(x, file.value, password, envelope.value, env);
      }
    }
  }

  lemma WrittenView(x: Build, contents: Contents, password: string, salt: Bytes, iv: Bytes)
    requires Lawful(x) && Typed(x, contents) && |salt| == MIN_SALT_BYTES && |iv| == IV_BYTES
    requires NoEmptyValue(Merged(x, contents))
    ensures View(x, Some(Json(Some(VAULT_VERSION), Some(Encrypted(x, contents, password, salt, iv)))), password)
            == Kept(x, Merged(x, contents))
  {
    var m := Merged(x, contents);
    var file := Encrypted(x, contents, password, salt, iv);
    WrittenStages(x, contents, password, salt, iv);
    PartitionMerges(x, m);
    RenderedOpens(x, m);
    if Fits(x, m) {
      assert Inside(x, file, password, ValidateEnvelope(file).value) == Holding(m, false);
    }
  }

  /** A readable file whose key derivation costs as much as any accepted one does. */
  ghost predicate Strongest(disk: Option<Disk>) {
    && disk.Some? && ParseVaultFile(disk.value).Ok?
    && var kdf := ParseVaultFile(disk.value).value.kdf;
       KdfFault(kdf).None? && forall other: Kdf | KdfFault(other).None? :: other.n <= kdf.n
  }

  lemma CurrentStrongest(disk: Option<Disk>)
    requires disk.Some? && ParseVaultFile(disk.value).Ok? && ParseVaultFile(disk.value).value.kdf == CURRENT_KDF
    ensures Strongest(disk)
  {
    KdfProfiles(CURRENT_KDF);
    forall other: Kdf | KdfFault(other).None? ensures other.n <= CURRENT_KDF.n {
      CurrentIsStrongest(other);
    }
  }

  lemma WrittenStrongest(x: Build, contents: Contents, password: string, salt: Bytes, iv: Bytes)
    requires Lawful(x) && Typed(x, contents) && |salt| == MIN_SALT_BYTES && |iv| == IV_BYTES
    ensures Strongest(Some(Json(Some(VAULT_VERSION), Some(Encrypted(x, contents, password, salt, iv)))))
  {
    WrittenStages(x, contents, password, salt, iv);
    CurrentStrongest(Some(Json(Some(VAULT_VERSION), Some(Encrypted(x, contents, password, salt, iv)))));
  }

  lemma FreshStrongest(x: Build, disk: Option<Disk>, password: string)
    requires View(x, disk, password).Holding? && !View(x, disk, password).stale
    ensures Strongest(disk)
  {
    var file := ParseVaultFile(disk.value).value;
    KdfProfiles(file.kdf);
    CurrentStrongest(disk);
  }

  // ---------------------------------------------------------------- the file

  class SecretVault {
    const x: Build
    var disk: Option<Disk>

    ghost predicate Valid() {
      Lawful(x)
    }

    ghost function Plainly(password: string): Plain
      reads this
    {
      View(x, disk, password)
    }

    constructor (x: Build, disk: Option<Disk>)
      requires Lawful(x)
      ensures Valid() && this.x == x && this.disk == disk
    {
      this.x, this.disk := x, disk;
    }

    method AtomicWriteJson(file: VaultFile, w: Write) returns (fault: Option<Code>)
      requires !w.sealFails
      modifies this
      ensures disk == if Lands(w) then Some(Json(Some(VAULT_VERSION), Some(file))) else old(disk)
      ensures fault == WriteFault(w)
    {
      if w.dirFails {
        return Some(Uncaught);
      }
      if w.store != NotStored {
        disk := Some(Json(Some(VAULT_VERSION), Some(file)));
      }
      fault := if w.store == Stored then None else Some(Io);
    }

    /** Encrypt, then write; a failure of either is the caller's to report. */
    method Save(contents: Contents, password: string, w: Write) returns (fault: Option<Code>)
      requires Valid() && Typed(x, contents) && NoEmptyValue(Merged(x, contents))
      requires |w.salt| == MIN_SALT_BYTES && |w.iv| == IV_BYTES
      modifies this
      ensures fault == WriteFault(w)
      ensures Plainly(password) == AfterWrite(x, old(Plainly(password)), Merged(x, contents), w)
      ensures !Lands(w) ==> disk == old(disk)
      ensures Lands(w) ==> Strongest(disk)
    {
      if w.sealFails {
        return Some(Uncaught);
      }
      var file := EncryptContents(x, contents, password, w.salt, w.iv);
      fault := AtomicWriteJson(file, w);
      WrittenView(x, contents, password, w.salt, w.iv);
      WrittenStrongest(x, contents, password, w.salt, w.iv);
    }

    /** What verifying and unlocking share: read, parse, decrypt. */
    method ReadContents(password: string, env: Env) returns (r: Result<Contents, Code>, stale: bool)
      requires Valid()
      ensures r == Answer(x, Plainly(password), env)
      ensures r.Ok? ==> stale == Plainly(password).stale
    {
      stale := false;
      if disk.None? {
        r := Err(Missing);
      } else if env.readFails {
        r := Err(Io);
      } else {
        ViewAnswers(x, disk.value, password, env);
        var file := ParseVaultFile(disk.value);
        if file.Err? {
          r := Err(file.error);
        } else {
          r := DecryptContents(x, file.value, password, env.run);
          stale := NeedsKdfUpgrade(file.value);
        }
      }
    }

    method VerifySecretVaultPassword(password: string, env: Env) returns (outcome: Outcome)
      requires Valid()
      ensures (outcome, Plainly(password)) == Step(x, Plainly(password), Verify, env)
    {
      var r, stale := ReadContents(password, env);
      outcome := if r.Ok? then Verified else Failed(r.error);
    }

    /** A failed upgrade rewrite does not block the unlock. */
    method UnlockSecretVault(password: string, env: Env) returns (r: Result<Contents, Code>)
      requires Valid() && Random(env)
      modifies this
      ensures (r, Plainly(password)) == Unlocked(x, old(Plainly(password)), env)
      ensures r.Err? ==> disk == old(disk)
      ensures r.Ok? && WriteFault(env.first).None? ==> Strongest(disk)
      ensures r.Ok? && !old(Plainly(password)).stale ==> disk == old(disk)
    {
      var stale: bool;
      r, stale := ReadContents(password, env);
      if r.Ok? && stale {
        PartitionMerges(x, Plainly(password).m);
        var fault := Save(r.value, password, env.first);
      } else if r.Ok? {
        FreshStrongest(x, disk, password);
      }
    }

    method CreateSecretVault(password: string, env: Env) returns (r: Result<Contents, Code>)
      requires Valid() && Random(env)
      modifies this
      ensures (r, Plainly(password)) == Open(x, old(Plainly(password)), env)
      ensures !Usable(old(Plainly(password))) ==> disk == old(disk)
      ensures r.Ok? ==> Usable(old(Plainly(password)))
      ensures r.Ok? && WriteFault(env.first).None? ==> Strongest(disk)
    {
      if disk.Some? {
        ghost var v := Plainly(password);
        PresentIsNotAbsent(x, disk, password);
        r := UnlockSecretVault(password, env);
        OnlyHoldingOpens(x, v, env);
        return;
      }
      r := StartEmpty(password, env);
    }

    /** The vault that was not there, created empty. */
    method StartEmpty(password: string, env: Env) returns (r: Result<Contents, Code>)
      requires Valid() && Random(env) && disk.None?
      modifies this
      ensures (r, Plainly(password)) == Open(x, Absent, env)
      ensures r.Ok? ==> Strongest(disk)
    {
      var contents := Contents(map[], map[]);
      assert Merged(x, contents) == map[] && Partition(x, map[]) == contents;
      var fault := Save(contents, password, env.first);
      r := if fault.Some? then Err(fault.value) else Ok(contents);
    }

    /** Key by key over the registry. */
    method EditKnown(secrets: Secrets, updates: Updates) returns (nextSecrets: Secrets)
      ensures nextSecrets == Applied(secrets, updates, x.known)
    {
      nextSecrets := secrets;
      var left: set<string> := x.known;
      while left != {}
        invariant left <= x.known
        invariant nextSecrets == Applied(secrets, updates, x.known - left)
        decreases left
      {
        var key :| key in left;
        left := left - {key};
        if key in updates {
          if Keeps(updates[key]) {
            nextSecrets := nextSecrets[key := updates[key].value];
          } else {
            nextSecrets := nextSecrets - {key};
          }
        }
      }
    }

    /** Key by key over the updates, skipping the registry. */
    method EditUnknown(secrets: Secrets, updates: Updates) returns (nextExtraSecrets: Secrets)
      requires PROTO !in secrets
      ensures nextExtraSecrets == Applied(secrets, updates, updates.Keys - x.known - {PROTO})
    {
      nextExtraSecrets := secrets;
      var left := updates.Keys;
      while left != {}
        invariant left <= updates.Keys
        invariant nextExtraSecrets == Applied(secrets, updates, updates.Keys - x.known - {PROTO} - left)
        decreases left
      {
        var key :| key in left;
        left := left - {key};
        if key !in x.known {
          if Keeps(updates[key]) {
            nextExtraSecrets := Assign(nextExtraSecrets, key, updates[key].value);
          } else {
            nextExtraSecrets := nextExtraSecrets - {key};
          }
        }
      }
    }

    /** The write of a read-modify-write whose read answered the map of v. */
    method SaveEdited(next: Contents, password: string, env: Env, ghost v: Plain, ghost op: Op) returns (outcome: Outcome)
      requires Valid() && Random(env) && (op.WriteKnown? || op.WriteExtra?)
      requires Open(x, v, env).0.Ok? && Open(x, v, env).1 == Plainly(password)
      requires Edited(x, next, op, MapOf(v))
      modifies this
      ensures (outcome, Plainly(password)) == Step(x, v, op, env)
      ensures outcome.Returned? ==> Strongest(disk)
    {
      ghost var now := Plainly(password);
      var fault := Save(next, password, env.second);
      outcome := if fault.Some? then Failed(fault.value) else Returned(next);
    }

    method WriteSecretVaultSecrets(password: string, updates: Updates, env: Env) returns (outcome: Outcome)
      requires Valid() && Random(env)
      modifies this
      ensures (outcome, Plainly(password)) == Step(x, old(Plainly(password)), WriteKnown(updates), env)
      ensures !Usable(old(Plainly(password))) ==> disk == old(disk)
      ensures outcome.Returned? ==> Strongest(disk)
    {
      ghost var v := Plainly(password);
      var start := CreateSecretVault(password, env);
      if start.Err? {
        return Failed(start.error);
      }
      OpensToMap(x, v, env);
      var current := start.value;
      var nextSecrets := EditKnown(current.secrets, updates);
      var next := Contents(nextSecrets, current.extraSecrets);
      KnownApplied(x, MapOf(v), updates, next);
      outcome := SaveEdited(next, password, env, v, WriteKnown(updates));
    }

    method WriteSecretVaultExtraSecrets(password: string, updates: Updates, env: Env) returns (outcome: Outcome)
      requires Valid() && Random(env)
      modifies this
      ensures (outcome, Plainly(password)) == Step(x, old(Plainly(password)), WriteExtra(updates), env)
      ensures !Usable(old(Plainly(password))) ==> disk == old(disk)
      ensures outcome.Returned? ==> Strongest(disk)
    {
      ghost var v := Plainly(password);
      var start := CreateSecretVault(password, env);
      if start.Err? {
        return Failed(start.error);
      }
      OpensToMap(x, v, env);
      var current := start.value;
      var nextExtraSecrets := EditUnknown(current.extraSecrets, updates);
      var next := Contents(current.secrets, nextExtraSecrets);
      UnknownApplied(x, MapOf(v), updates, next);
      outcome := SaveEdited(next, password, env, v, WriteExtra(updates));
    }
  }

  /** The contents that an edit of the whole map leaves. */
  ghost predicate Edited(x: Build, next: Contents, op: Op, m: Secrets) {
    && Typed(x, next)
    && Merged(x, next) == Intended(x, op, m)
    && Tidy(Merged(x, next))
    && Partition(x, Merged(x, next)) == next
  }

  lemma KnownMerged(x: Build, m: Secrets, updates: Updates, next: Contents)
    requires Tidy(m) && next == Contents(Applied(Known(x, m), updates, x.known), Unknown(x, m))
    ensures Typed(x, next) && Merged(x, next) == Applied(m, updates, x.known)
  {
    assert Unknown(x, next.extraSecrets) == next.extraSecrets;
  }

  lemma UnknownMerged(x: Build, m: Secrets, updates: Updates, ks: set<string>, next: Contents)
    requires Tidy(m) && ks == updates.Keys - x.known - {PROTO}
    requires next == Contents(Known(x, m), Applied(Unknown(x, m), updates, ks))
    ensures Typed(x, next) && Merged(x, next) == Applied(m, updates, ks)
  {
    assert Unknown(x, next.extraSecrets) == next.extraSecrets;
  }

  lemma AppliedTidy(m: Secrets, updates: Updates, ks: set<string>)
    requires Tidy(m) && PROTO !in ks
    ensures Tidy(Applied(m, updates, ks))
  {
  }

  /** Editing the known part and merging is editing the whole. */
  lemma KnownApplied(x: Build, m: Secrets, updates: Updates, next: Contents)
    requires Tidy(m) && next == Contents(Applied(Known(x, m), updates, x.known), Unknown(x, m))
    ensures Edited(x, next, WriteKnown(updates), m)
  {
    KnownMerged(x, m, updates, next);
    AppliedTidy(m, updates, x.known);
    ContentsSurvive(x, next);
  }

  /** Editing the unknown part and merging is editing the whole. */
  lemma UnknownApplied(x: Build, m: Secrets, updates: Updates, next: Contents)
    requires Tidy(m)
    requires next == Contents(Known(x, m), Applied(Unknown(x, m), updates, updates.Keys - x.known - {PROTO}))
    ensures Edited(x, next, WriteExtra(updates), m)
  {
    UnknownMerged(x, m, updates, updates.Keys - x.known - {PROTO}, next);
    AppliedTidy(m, updates, updates.Keys - x.known - {PROTO});
    ContentsSurvive(x, next);
  }

  lemma PresentIsNotAbsent(x: Build, disk: Option<Disk>, password: string)
    ensures View(x, disk, password).Absent? <==> disk.None?
  {
  }

  lemma OnlyHoldingOpens(x: Build, v: Plain, env: Env)
    ensures Unlocked(x, v, env).0.Ok? ==> v.Holding?
  {
  }

  /** A vault that opens answers its map split in two. */
  lemma OpensToMap(x: Build, v: Plain, env: Env)
    requires Open(x, v, env).0.Ok? && (v.Holding? ==> Tidy(v.m))
    ensures Open(x, v, env).0.value == Partition(x, MapOf(v)) && Tidy(MapOf(v))
  {
    assert Partition(x, map[]) == Contents(map[], map[]);
  }
}
