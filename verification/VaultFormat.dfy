/**
 The vault file of src/lib/local-secret-vault/crypto.ts: envelope and KDF checks, encryption and the
 staged decryption. scrypt, AES-256-GCM and the JSON text of the contents are parameters of which only
 the round trip is known.
 */
module VaultFormat {
  import opened Base64
  import opened Options

  type Secrets = map<string, string>

  datatype Code = Missing | InvalidPassword | Corrupt | Io | Incompatible | Unavailable | Uncaught

  datatype Kdf = Kdf(n: int, r: int, p: int, dkLen: int)

  datatype VaultFile = VaultFile(kdf: Kdf, salt: string, iv: string, tag: string, ciphertext: string)

  /** What JSON.parse makes of the file: its integer version, if any, and the fields the schema names. */
  datatype Disk = NotJson | Json(version: Option<int>, fields: Option<VaultFile>)

  /** The decrypted contents; a build that knows no extra secrets has the empty map here. */
  datatype Contents = Contents(secrets: Secrets, extraSecrets: Secrets)

  datatype Payload = Payload(version: int, secrets: Secrets)

  datatype Sealed = Sealed(ciphertext: Bytes, tag: Bytes)

  /** Assigning a string to this property of a plain object does nothing. */
  const PROTO := "__proto__"

  type Keys = ks: set<string> | PROTO !in ks

  /** One build: the secret names it knows, and the primitives it calls. */
  datatype Build = Build(
    known: Keys,
    derive: (string, Bytes, Kdf) -> Bytes,
    seal: (Bytes, Bytes, Bytes) -> Sealed,
    unseal: (Bytes, Bytes, Sealed) -> Option<Bytes>,
    render: Secrets -> Bytes,
    parse: Bytes -> Option<Payload>)

  /** Decryption undoes encryption, and the JSON text of the contents reads back. */
  ghost predicate Lawful(x: Build) {
    && (forall key: Bytes, iv: Bytes, text: Bytes :: x.unseal(key, iv, x.seal(key, iv, text)) == Some(text))
    && (forall key: Bytes, iv: Bytes, text: Bytes ::
          |x.seal(key, iv, text).ciphertext| == |text| && |x.seal(key, iv, text).tag| == TAG_BYTES)
    && (forall m: Secrets :: |x.render(m)| >= 1)
    && (forall m: Secrets | PROTO !in m :: x.parse(x.render(m)) == Some(Payload(VAULT_VERSION, m)))
  }

  const VAULT_VERSION := 1
  const CURRENT_KDF := Kdf(131072, 8, 1, 32)
  const IV_BYTES := 12
  const TAG_BYTES := 16
  const MIN_SALT_BYTES := 16
  const MAX_SALT_BYTES := 64
  const MAX_CIPHERTEXT_BYTES := 10 * 1024 * 1024
  const KDF_MAXMEM_BYTES := 256 * 1024 * 1024

  function Assign(m: Secrets, key: string, value: string): Secrets {
    if key == PROTO then m else m[key := value]
  }

  // ---------------------------------------------------------------- KDF parameters

  function BitAnd(x: nat, y: nat): nat {
    if x == 0 || y == 0 then 0 else 2 * BitAnd(x / 2, y / 2) + (if x % 2 == 1 && y % 2 == 1 then 1 else 0)
  }

  /** The operands of & are cut to 32 bits. */
  predicate IsPowerOfTwo(value: int) {
    value > 0 && BitAnd(value % 0x1_0000_0000, (value - 1) % 0x1_0000_0000) == 0
  }

  function KdfFault(kdf: Kdf): Option<Code> {
    if !IsPowerOfTwo(kdf.n) || kdf.n < 16384 || kdf.n > 131072 then Some(Corrupt)
    else if kdf.r != 8 then Some(Corrupt)
    else if kdf.p != 1 then Some(Corrupt)
    else if kdf.dkLen != 32 then Some(Corrupt)
    else if KDF_MAXMEM_BYTES < 128 * kdf.n * kdf.r then Some(Corrupt)
    else None
  }

  predicate NeedsKdfUpgrade(file: VaultFile) {
    || file.kdf.n != CURRENT_KDF.n
    || file.kdf.r != CURRENT_KDF.r
    || file.kdf.p != CURRENT_KDF.p
    || file.kdf.dkLen != CURRENT_KDF.dkLen
  }

  // Halving ends at one without a remainder.
  predicate IsPow2(x: nat) {
    x == 1 || (x > 1 && x % 2 == 0 && IsPow2(x / 2))
  }

  lemma {:induction false} SelfAnd(x: nat)
    ensures BitAnd(x, x) == x
  {
    if x > 0 {
      SelfAnd(x / 2);
    }
  }

  /** No bit in common with the number below: exactly the powers of two. */
  lemma {:induction false} PowersOfTwo(x: nat)
    requires x > 0
    ensures BitAnd(x, x - 1) == 0 <==> IsPow2(x)
  {
    if x > 1 && x % 2 == 0 {
      PowersOfTwo(x / 2);
      assert (x - 1) / 2 == x / 2 - 1;
    } else if x > 1 {
      SelfAnd(x / 2);
      assert (x - 1) / 2 == x / 2;
    }
  }

  function Pow2(k: nat): nat {
    if k == 0 then 1 else 2 * Pow2(k - 1)
  }

  /** Between two neighbouring powers there is no other. */
  lemma {:induction false} OnePowerEachOctave(x: nat, k: nat)
    requires Pow2(k) <= x < 2 * Pow2(k)
    ensures IsPow2(x) <==> x == Pow2(k)
  {
    if k > 0 {
      OnePowerEachOctave(x / 2, k - 1);
    }
  }

  lemma SmallPowers(n: nat)
    requires 0 < n < 0x1_0000_0000
    ensures IsPowerOfTwo(n) <==> IsPow2(n)
  {
    PowersOfTwo(n);
  }

  lemma SupportedSizes(n: nat)
    requires 16384 <= n <= 131072
    ensures IsPow2(n) <==> n in {16384, 32768, 65536, 131072}
  {
    assert Pow2(14) == 16384 && Pow2(15) == 32768 && Pow2(16) == 65536 && Pow2(17) == 131072;
    if n < 32768 {
      OnePowerEachOctave(n, 14);
    } else if n < 65536 {
      OnePowerEachOctave(n, 15);
    } else if n < 131072 {
      OnePowerEachOctave(n, 16);
    } else {
      OnePowerEachOctave(n, 17);
    }
  }

  /** The accepted profiles: four sizes, every other parameter fixed, and never past the memory ceiling. */
  lemma KdfProfiles(kdf: Kdf)
    ensures KdfFault(kdf).None? <==> kdf.n in {16384, 32768, 65536, 131072} && kdf.r == 8 && kdf.p == 1 && kdf.dkLen == 32
  {
    if 16384 <= kdf.n <= 131072 {
      SmallPowers(kdf.n);
      SupportedSizes(kdf.n);
    }
  }

  /** No accepted profile costs more, so what is written is as strong as any file that is read. */
  lemma CurrentIsStrongest(kdf: Kdf)
    requires KdfFault(kdf).None?
    ensures kdf.n <= CURRENT_KDF.n && KdfFault(CURRENT_KDF).None?
    ensures kdf.n == CURRENT_KDF.n ==> kdf == CURRENT_KDF
  {
    KdfProfiles(kdf);
    KdfProfiles(CURRENT_KDF);
  }

  /** An accepted profile is upgraded if and only if a stronger one is accepted: never sideways, never down. */
  lemma UpgradesGoUp(file: VaultFile)
    requires KdfFault(file.kdf).None?
    ensures NeedsKdfUpgrade(file) <==> exists kdf: Kdf :: KdfFault(kdf).None? && kdf.n > file.kdf.n
  {
    CurrentIsStrongest(file.kdf);
    forall kdf: Kdf | KdfFault(kdf).None? ensures kdf.n <= CURRENT_KDF.n {
      CurrentIsStrongest(kdf);
    }
  }

  // ---------------------------------------------------------------- the file and its envelope

  predicate MatchesSchema(file: VaultFile) {
    && file.kdf.n > 0 && file.kdf.r > 0 && file.kdf.p > 0 && file.kdf.dkLen == 32
    && file.salt != "" && file.iv != "" && file.tag != "" && file.ciphertext != ""
  }

  /** A newer outer version is told apart before the shape is looked at. */
  function ParseVaultFile(disk: Disk): Result<VaultFile, Code> {
    if disk.NotJson? then Err(Corrupt)
    else if disk.version.Some? && disk.version.value > VAULT_VERSION then Err(Incompatible)
    else if disk.version != Some(VAULT_VERSION) || disk.fields.None? || !MatchesSchema(disk.fields.value) then Err(Corrupt)
    else Ok(disk.fields.value)
  }

  datatype Envelope = Envelope(salt: Bytes, iv: Bytes, tag: Bytes, ciphertext: Bytes)

  function ValidateEnvelope(file: VaultFile): Result<Envelope, Code> {
    if !IsCanonical(file.salt) || !IsCanonical(file.iv) || !IsCanonical(file.tag) || !IsCanonical(file.ciphertext) then
      Err(Corrupt)
    else
      var e := Envelope(Decode(file.salt), Decode(file.iv), Decode(file.tag), Decode(file.ciphertext));
      if |e.iv| != IV_BYTES then Err(Corrupt)
      else if |e.tag| != TAG_BYTES then Err(Corrupt)
      else if |e.salt| < MIN_SALT_BYTES || |e.salt| > MAX_SALT_BYTES then Err(Corrupt)
      else if |e.ciphertext| < 1 || |e.ciphertext| > MAX_CIPHERTEXT_BYTES then Err(Corrupt)
      else Ok(e)
  }

  /** The file spells out these bytes, each within its bounds. */
  predicate Spells(file: VaultFile, e: Envelope) {
    && file.salt == Encode(e.salt) && file.iv == Encode(e.iv)
    && file.tag == Encode(e.tag) && file.ciphertext == Encode(e.ciphertext)
    && |e.iv| == 12 && |e.tag| == 16
    && 16 <= |e.salt| <= 64 && 1 <= |e.ciphertext| <= 10 * 1024 * 1024
  }

  /** The envelope check accepts exactly the files that spell out bytes within the bounds. */
  lemma EnvelopeSpelled(file: VaultFile, e: Envelope)
    ensures ValidateEnvelope(file) == Ok(e) <==> Spells(file, e)
    ensures ValidateEnvelope(file).Err? ==> ValidateEnvelope(file).error == Corrupt
  {
    CanonicalIsEncoding(file.salt);
    CanonicalIsEncoding(file.iv);
    CanonicalIsEncoding(file.tag);
    CanonicalIsEncoding(file.ciphertext);
  }

  // ---------------------------------------------------------------- contents

  /** The keys this build knows, and those it does not. */
  function Known(x: Build, m: Secrets): Secrets {
    map k | k in m && k in x.known :: m[k]
  }

  function Unknown(x: Build, m: Secrets): Secrets {
    map k | k in m && k !in x.known && k != PROTO :: m[k]
  }

  function Partition(x: Build, m: Secrets): Contents {
    Contents(Known(x, m), Unknown(x, m))
  }

  function Merged(x: Build, contents: Contents): Secrets {
    contents.secrets + Unknown(x, contents.extraSecrets)
  }

  predicate NoEmptyValue(m: Secrets) {
    forall k | k in m :: m[k] != ""
  }

  /** What the type of the contents promises. */
  predicate Typed(x: Build, contents: Contents) {
    contents.secrets.Keys <= x.known
  }

  function Encrypted(x: Build, contents: Contents, password: string, salt: Bytes, iv: Bytes): VaultFile {
    var sealed := x.seal(x.derive(password, salt, CURRENT_KDF), iv, x.render(Merged(x, contents)));
    VaultFile(CURRENT_KDF, Encode(salt), Encode(iv), Encode(sealed.tag), Encode(sealed.ciphertext))
  }

  method EncryptContents(x: Build, contents: Contents, password: string, salt: Bytes, iv: Bytes) returns (file: VaultFile)
    requires Typed(x, contents)
    ensures file == Encrypted(x, contents, password, salt, iv)
  {
    var key := x.derive(password, salt, CURRENT_KDF);
    var secretsOnDisk := contents.secrets;
    var left := contents.extraSecrets.Keys;
    while left != {}
      invariant left <= contents.extraSecrets.Keys
      invariant secretsOnDisk == contents.secrets + Unknown(x, contents.extraSecrets - left)
      decreases left
    {
      var k :| k in left;
      left := left - {k};
      if k !in x.known {
        secretsOnDisk := Assign(secretsOnDisk, k, contents.extraSecrets[k]);
      }
    }
    assert contents.extraSecrets - left == contents.extraSecrets;
    var sealed := x.seal(key, iv, x.render(secretsOnDisk));
    file := VaultFile(CURRENT_KDF, Encode(salt), Encode(iv), Encode(sealed.tag), Encode(sealed.ciphertext));
  }

  /** Failures of the crypto runtime: in key derivation or the cipher set-up, and after authentication. */
  datatype Runtime = Runtime(deriveFails: bool, decodeFails: bool)

  function Opened(x: Build, text: Bytes): Result<Contents, Code> {
    var payload := x.parse(text);
    if payload.None? || payload.value.version <= 0 || !NoEmptyValue(payload.value.secrets) then Err(Corrupt)
    else if payload.value.version > VAULT_VERSION then Err(Incompatible)
    else Ok(Partition(x, payload.value.secrets))
  }

  /** The one password check: the plaintext, if the tag verifies. */
  function Authenticated(x: Build, file: VaultFile, password: string, e: Envelope): Option<Bytes> {
    x.unseal(x.derive(password, e.salt, file.kdf), e.iv, Sealed(e.ciphertext, e.tag))
  }

  /** From key derivation on. */
  function Unsealed(x: Build, file: VaultFile, password: string, run: Runtime, e: Envelope): Result<Contents, Code> {
    if run.deriveFails then Err(Unavailable)
    else
      var text := Authenticated(x, file, password, e);
      if text.None? then Err(InvalidPassword)
      else if run.decodeFails then Err(Unavailable)
      else Opened(x, text.value)
  }

  function Decrypted(x: Build, file: VaultFile, password: string, run: Runtime): Result<Contents, Code> {
    var envelope := ValidateEnvelope(file);
    if envelope.Err? then Err(envelope.error)
    else if KdfFault(file.kdf).Some? then Err(KdfFault(file.kdf).value)
    else Unsealed(x, file, password, run, envelope.value)
  }

  method DecryptContents(x: Build, file: VaultFile, password: string, run: Runtime) returns (r: Result<Contents, Code>)
    ensures r == Decrypted(x, file, password, run)
  {
    var envelope := ValidateEnvelope(file);
    if envelope.Err? {
      return Err(envelope.error);
    }
    var fault := KdfFault(file.kdf);
    if fault.Some? {
      return Err(fault.value);
    }
    if run.deriveFails {
      return Err(Unavailable);
    }
    var text := Authenticated(x, file, password, envelope.value);
    if text.None? {
      return Err(InvalidPassword);
    }
    if run.decodeFails {
      return Err(Unavailable);
    }
    r := ReadContents(x, text.value);
  }

  /** What is left once the password is proven. */
  method ReadContents(x: Build, text: Bytes) returns (r: Result<Contents, Code>)
    ensures r == Opened(x, text)
  {
    var payload := x.parse(text);
    if payload.None? || payload.value.version <= 0 || !NoEmptyValue(payload.value.secrets) {
      return Err(Corrupt);
    }
    if payload.value.version > VAULT_VERSION {
      return Err(Incompatible);
    }
    var contents := SplitSecrets(x, payload.value.secrets);
    r := Ok(contents);
  }

  method SplitSecrets(x: Build, m: Secrets) returns (contents: Contents)
    ensures contents == Partition(x, m)
  {
    var secrets: Secrets, extraSecrets: Secrets := map[], map[];
    var left := m.Keys;
    while left != {}
      invariant left <= m.Keys
      invariant secrets == Known(x, m - left) && extraSecrets == Unknown(x, m - left)
      decreases left
    {
      var k :| k in left;
      left := left - {k};
      if k in x.known {
        secrets := secrets[k := m[k]];
      } else {
        extraSecrets := Assign(extraSecrets, k, m[k]);
      }
    }
    assert m - left == m;
    contents := Contents(secrets, extraSecrets);
  }

  // ---------------------------------------------------------------- what decryption answers

  predicate Fits(x: Build, m: Secrets) {
    |x.render(m)| <= MAX_CIPHERTEXT_BYTES
  }

  /** How a file just written passes each stage. */
  lemma WrittenStages(x: Build, contents: Contents, password: string, salt: Bytes, iv: Bytes)
    requires Lawful(x) && Typed(x, contents) && |salt| == MIN_SALT_BYTES && |iv| == IV_BYTES
    ensures var file, text := Encrypted(x, contents, password, salt, iv), x.render(Merged(x, contents));
            && ParseVaultFile(Json(Some(VAULT_VERSION), Some(file))) == Ok(file)
            && KdfFault(file.kdf).None?
            && (if Fits(x, Merged(x, contents)) then
                  ValidateEnvelope(file).Ok? && Authenticated(x, file, password, ValidateEnvelope(file).value) == Some(text)
                else ValidateEnvelope(file) == Err(Corrupt))
  {
    var file, text := Encrypted(x, contents, password, salt, iv), x.render(Merged(x, contents));
    var key := x.derive(password, salt, CURRENT_KDF);
    var sealed := x.seal(key, iv, text);
    assert x.unseal(key, iv, sealed) == Some(text);
    assert Sealed(sealed.ciphertext, sealed.tag) == sealed;
    var e := Envelope(salt, iv, sealed.tag, sealed.ciphertext);
    EncodingIsCanonical(salt);
    EncodingIsCanonical(iv);
    EncodingIsCanonical(sealed.tag);
    EncodingIsCanonical(sealed.ciphertext);
    EnvelopeSpelled(file, e);
    KdfProfiles(CURRENT_KDF);
  }

  lemma RenderedOpens(x: Build, m: Secrets)
    requires Lawful(x) && PROTO !in m
    ensures Opened(x, x.render(m)) == if NoEmptyValue(m) then Ok(Partition(x, m)) else Err(Corrupt)
  {
    assert x.parse(x.render(m)) == Some(Payload(VAULT_VERSION, m));
  }

  /**
   A file just written is accepted exactly when its contents are within the size cap and hold no empty
   value, and then gives back the merged secrets split into known and unknown; otherwise it is corrupt.
   */
  lemma WrittenFileOpens(x: Build, contents: Contents, password: string, salt: Bytes, iv: Bytes)
    requires Lawful(x) && Typed(x, contents) && |salt| == MIN_SALT_BYTES && |iv| == IV_BYTES
    ensures var file, m := Encrypted(x, contents, password, salt, iv), Merged(x, contents);
            Decrypted(x, file, password, Runtime(false, false))
            == if Fits(x, m) && NoEmptyValue(m) then Ok(Partition(x, m)) else Err(Corrupt)
  {
    WrittenStages(x, contents, password, salt, iv);
    RenderedOpens(x, Merged(x, contents));
  }

  /** The contents that come back are the contents that went in. */
  lemma ContentsSurvive(x: Build, contents: Contents)
    requires Typed(x, contents)
    requires forall k | k in contents.extraSecrets :: k !in x.known && k != PROTO
    ensures Partition(x, Merged(x, contents)) == contents
  {
    assert Known(x, Merged(x, contents)) == contents.secrets;
    assert Unknown(x, Merged(x, contents)) == contents.extraSecrets;
  }

  predicate TagRefused(x: Build, file: VaultFile, password: string, run: Runtime, e: Envelope) {
    KdfFault(file.kdf).None? && !run.deriveFails && Authenticated(x, file, password, e).None?
  }

  lemma RefusedWithEnvelope(x: Build, file: VaultFile, password: string, run: Runtime, e: Envelope)
    requires ValidateEnvelope(file) == Ok(e)
    ensures Decrypted(x, file, password, run) == Err(InvalidPassword) <==> TagRefused(x, file, password, run, e)
  {
  }

  /**
   invalid_password means: the file spells out an envelope within bounds, names an accepted KDF profile,
   the key was derived, and the tag did not verify. Nothing else is reported that way.
   */
  lemma InvalidPasswordMeansTag(x: Build, file: VaultFile, password: string, run: Runtime)
    ensures Decrypted(x, file, password, run) == Err(InvalidPassword)
            <==> exists e :: Spells(file, e) && TagRefused(x, file, password, run, e)
  {
    var envelope := ValidateEnvelope(file);
    forall e
      ensures Spells(file, e) <==> envelope == Ok(e)
    {
      EnvelopeSpelled(file, e);
    }
    if envelope.Ok? {
      RefusedWithEnvelope(x, file, password, run, envelope.value);
    } else {
      assert envelope == Err(Corrupt) by { EnvelopeSpelled(file, Envelope([], [], [], [])); }
    }
  }

  // ---------------------------------------------------------------- what each code means

  /** An outer version from the future is incompatible; whatever else is not a vault file is corrupt. */
  lemma OuterCodes(disk: Disk)
    ensures ParseVaultFile(disk) == Err(Incompatible)
       <==> disk.Json? && disk.version.Some? && disk.version.value > 1
    ensures ParseVaultFile(disk).Err? ==> ParseVaultFile(disk).error in {Incompatible, Corrupt}
    ensures ParseVaultFile(disk).Ok? ==> disk.version == Some(1) && disk.fields == Some(ParseVaultFile(disk).value)
  {
  }

  /** Once the password is proven, so for the contents. */
  lemma InnerCodes(x: Build, text: Bytes)
    ensures var payload, r := x.parse(text), Opened(x, text);
            && (r.Ok? <==> payload.Some? && payload.value.version == 1 && NoEmptyValue(payload.value.secrets))
            && (r == Err(Incompatible)
                <==> payload.Some? && payload.value.version > 1 && NoEmptyValue(payload.value.secrets))
            && (r.Err? ==> r.error in {Incompatible, Corrupt})
            && (r.Ok? ==> r.value.secrets + r.value.extraSecrets == payload.value.secrets - {PROTO})
  {
    if Opened(x, text).Ok? {
      var m := x.parse(text).value.secrets;
      assert Known(x, m) + Unknown(x, m) == m - {PROTO};
    }
  }

  /** A runtime failure of an acceptable file is unavailable, before and after the tag was checked. */
  predicate RuntimeFails(x: Build, file: VaultFile, password: string, run: Runtime, e: Envelope) {
    KdfFault(file.kdf).None? && (run.deriveFails || (Authenticated(x, file, password, e).Some? && run.decodeFails))
  }

  lemma FailsWithEnvelope(x: Build, file: VaultFile, password: string, run: Runtime, e: Envelope)
    requires ValidateEnvelope(file) == Ok(e)
    ensures Decrypted(x, file, password, run) == Err(Unavailable) <==> RuntimeFails(x, file, password, run, e)
  {
    if Authenticated(x, file, password, e).Some? {
      InnerCodes(x, Authenticated(x, file, password, e).value);
    }
  }

  /** Nothing but a runtime failure is reported as one, and it never passes for a wrong password. */
  lemma UnavailableMeansRuntime(x: Build, file: VaultFile, password: string, run: Runtime)
    ensures Decrypted(x, file, password, run) == Err(Unavailable)
            <==> exists e :: Spells(file, e) && RuntimeFails(x, file, password, run, e)
  {
    var envelope := ValidateEnvelope(file);
    forall e
      ensures Spells(file, e) <==> envelope == Ok(e)
    {
      EnvelopeSpelled(file, e);
    }
    if envelope.Ok? {
      FailsWithEnvelope(x, file, password, run, envelope.value);
    } else {
      assert envelope == Err(Corrupt) by { EnvelopeSpelled(file, Envelope([], [], [], [])); }
    }
  }
}
