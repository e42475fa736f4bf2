/**
 bridge/internal/endpoint/endpoint.go: where the bridge dials. Directory facts arrive through a
 probe, the discriminator (the first 12 hex characters of a SHA-256) is an input, and message text is
 not part of this model.
 */
module Endpoint {
  import opened Options
  import opened Segments
  import opened PosixPaths
  import Numerals

  type Discriminator = d: string |
      |d| == 12 && forall i | 0 <= i < 12 :: '0' <= d[i] <= '9' || 'a' <= d[i] <= 'f'
    witness "000000000000"

  /** One directory as the planner sees it; mode holds permission bits. */
  datatype DirFacts = DirFacts(isDirectory: bool, uid: int, mode: bv32)

  datatype Input = Input(
    goos: string,
    discriminator: Discriminator,
    env: map<string, string>,
    tmpdir: string,
    uid: int,
    probe: string -> Option<DirFacts>)

  datatype RefusalCode =
    | OverrideNotAbsolute
    | OverrideInvalidPipe
    | OverridePipeOnUnix
    | OverrideParentMissing
    | OverrideParentNotDir
    | OverrideParentNotOwned
    | OverrideParentMode
    | PathTooLong

  datatype Plan =
    | Unix(path: string, parentDir: string, createParent: bool)
    | Pipe(path: string)
    | Refused(code: RefusalCode)

  const SUN_PATH_MAX_BYTES := 103
  const OVERRIDE_ENV := "VEX_STUDIO_SOCKET"
  const XDG_ENV := "XDG_RUNTIME_DIR"

  function FileName(d: Discriminator): string {
    "vex-studio-" + d + ".sock"
  }

  function PipeName(d: Discriminator): string {
    "\\\\.\\pipe\\vex-studio-" + d
  }

  predicate IsPrivateDirectory(facts: Option<DirFacts>, uid: int) {
    && facts.Some? && facts.value.isDirectory
    && facts.value.uid == uid
    && facts.value.mode & 0x3F == 0
  }

  predicate WithinSunPath(candidate: string) {
    |candidate| <= SUN_PATH_MAX_BYTES
  }

  predicate IsWindowsPipePath(value: string) {
    && |value| > 4
    && value[0] == '\\' && value[1] == '\\' && (value[2] == '.' || value[2] == '?') && value[3] == '\\'
    && "pipe\\" <= value[4..]
    && var name := value[9..]; name != "" && '\\' !in name && '/' !in name
  }

  function SystemdRuntimeDir(uid: int): string {
    Joined(["/run/user", Numerals.Signed(uid)])
  }

  function PlanPrivateRuntimeDir(runtimeDir: string, name: string): Plan {
    var candidate := Joined([runtimeDir, name]);
    if WithinSunPath(candidate) then Unix(candidate, runtimeDir, false) else Refused(PathTooLong)
  }

  function TmpParent(input: Input): string {
    Joined([input.tmpdir, "vex-studio-" + Numerals.Signed(input.uid)])
  }

  function PlanTmpdir(input: Input): Plan {
    var parent := TmpParent(input);
    var candidate := Joined([parent, FileName(input.discriminator)]);
    if WithinSunPath(candidate) then Unix(candidate, parent, true) else Refused(PathTooLong)
  }

  function PlanOverride(value: string, input: Input): Plan {
    if input.goos != "windows" && "\\\\" <= value then Refused(OverridePipeOnUnix)
    else if input.goos == "windows" then
      if IsWindowsPipePath(value) then Pipe(value) else Refused(OverrideInvalidPipe)
    else if !IsAbsolute(value) then Refused(OverrideNotAbsolute)
    else if !WithinSunPath(value) then Refused(PathTooLong)
    else
      var parent := Dirname(value);
      var facts := input.probe(parent);
      if facts.None? then Refused(OverrideParentMissing)
      else if !facts.value.isDirectory then Refused(OverrideParentNotDir)
      else if facts.value.uid != input.uid then Refused(OverrideParentNotOwned)
      else if facts.value.mode & 0x1FF != 0x1C0 then Refused(OverrideParentMode)
      else Unix(value, parent, false)
  }

  predicate UsableRuntimeDir(input: Input) {
    var dir := TextAt(input.env, XDG_ENV);
    IsAbsolute(dir) && IsPrivateDirectory(input.probe(dir), input.uid)
  }

  predicate SystemdPrivate(input: Input) {
    IsPrivateDirectory(input.probe(SystemdRuntimeDir(input.uid)), input.uid)
  }

  function Derive(input: Input): Plan {
    var override := TextAt(input.env, OVERRIDE_ENV);
    var name := FileName(input.discriminator);
    if override != "" then PlanOverride(override, input)
    else if input.goos == "windows" then Pipe(PipeName(input.discriminator))
    else if input.goos == "linux" && SystemdPrivate(input) then
      PlanPrivateRuntimeDir(SystemdRuntimeDir(input.uid), name)
    else if input.goos == "linux" && UsableRuntimeDir(input) then
      PlanPrivateRuntimeDir(TextAt(input.env, XDG_ENV), name)
    else PlanTmpdir(input)
  }

  // ---------------------------------------------------------------- what every unix plan promises

  lemma FileNamePlain(d: Discriminator)
    ensures PlainName(FileName(d))
  {
    assert FileName(d)[0] == 'v';
    forall i | 0 <= i < |FileName(d)|
      ensures FileName(d)[i] != '/'
    {
      if 11 <= i < 23 {
        assert FileName(d)[i] == d[i - 11];
      } else if 23 <= i {
        assert FileName(d)[i] == ".sock"[i - 23];
      } else {
        assert FileName(d)[i] == "vex-studio-"[i];
      }
    }
  }

  lemma UserDirPlain(prefix: string, uid: int)
    requires prefix == "" || PlainName(prefix)
    ensures PlainName(prefix + Numerals.Signed(uid))
  {
    var name := prefix + Numerals.Signed(uid);
    var digits := Numerals.Signed(uid);
    assert name[|name| - 1] == digits[|digits| - 1];
    forall i | 0 <= i < |name|
      ensures name[i] != '/'
    {
      if i < |prefix| {
        assert name[i] == prefix[i];
      } else {
        assert name[i] == digits[i - |prefix|];
      }
    }
  }

  // ---------------------------------------------------------------- without an override

  /** The runtime directory the environment offers, or the directory below the temporary one. */
  function Fallback(input: Input): string {
    if UsableRuntimeDir(input) then TextAt(input.env, XDG_ENV) else TmpParent(input)
  }

  /** The directory a linux process plans in, and anyone else without a pipe. */
  function ChosenDir(input: Input): string {
    if input.goos != "linux" then TmpParent(input)
    else if SystemdPrivate(input) then SystemdRuntimeDir(input.uid)
    else Fallback(input)
  }

  function Candidate(input: Input): string {
    Joined([ChosenDir(input), FileName(input.discriminator)])
  }

  /** What the bridge dials under a plan, if it dials a unix socket. */
  function Dialled(plan: Plan): Option<string> {
    if plan.Unix? then Some(plan.path) else None
  }

  lemma SystemdDirForm(uid: int)
    ensures Pushed("/run/user", [Numerals.Signed(uid)], SystemdRuntimeDir(uid))
  {
    assert "/run/user"[0] == '/';
    UserDirPlain("", uid);
    assert "" + Numerals.Signed(uid) == Numerals.Signed(uid);
    NamePushed("/run/user", Numerals.Signed(uid));
  }

  lemma TmpParentForm(input: Input)
    requires IsAbsolute(input.tmpdir)
    ensures Pushed(input.tmpdir, ["vex-studio-" + Numerals.Signed(input.uid)], TmpParent(input))
  {
    assert PlainName("vex-studio-");
    UserDirPlain("vex-studio-", input.uid);
    NamePushed(input.tmpdir, "vex-studio-" + Numerals.Signed(input.uid));
  }

  /** Every derived path is the file name pushed onto the directory chosen. */
  lemma CandidateForm(input: Input)
    requires IsAbsolute(input.tmpdir)
    ensures IsAbsolute(ChosenDir(input))
    ensures Pushed(ChosenDir(input), [FileName(input.discriminator)], Candidate(input))
  {
    SystemdDirForm(input.uid);
    TmpParentForm(input);
    FileNamePlain(input.discriminator);
    NamePushed(ChosenDir(input), FileName(input.discriminator));
  }

  lemma DerivedPlan(input: Input)
    requires TextAt(input.env, OVERRIDE_ENV) == "" && input.goos != "windows"
    ensures Dialled(Derive(input)) == if WithinSunPath(Candidate(input)) then Some(Candidate(input)) else None
    ensures Derive(input).Unix? ==> Derive(input).parentDir == ChosenDir(input)
  {
  }

  /** The group bits and the other bits, and the owner's. */
  const GROUP_BITS: bv32 := 0x38
  const OTHER_BITS: bv32 := 0x07
  const OWNER_BITS: bv32 := 0x1C0

  /** A directory of this user's that nobody else may list, read or enter. */
  predicate Closed(facts: Option<DirFacts>, uid: int) {
    match facts
    case None => false
    case Some(f) => f.isDirectory && f.uid == uid && f.mode & GROUP_BITS == 0 && f.mode & OTHER_BITS == 0
  }

  lemma PrivateIsClosed(facts: Option<DirFacts>, uid: int)
    ensures IsPrivateDirectory(facts, uid) <==> Closed(facts, uid)
  {
    if facts.Some? {
      ModeBits(facts.value.mode);
    }
  }

  lemma ModeBits(mode: bv32)
    ensures mode & 0x3F == 0 <==> mode & GROUP_BITS == 0 && mode & OTHER_BITS == 0
    ensures mode & 0x1FF == 0x1C0 ==> mode & 0x3F == 0 && mode & OWNER_BITS == OWNER_BITS
  {
  }

  /** What a linux process without an override may plan in, in the order it looks. */
  lemma DirectoriesInOrder(input: Input)
    requires input.goos == "linux" && TextAt(input.env, "VEX_STUDIO_SOCKET") == ""
    ensures var systemd, xdg := SystemdRuntimeDir(input.uid), TextAt(input.env, "XDG_RUNTIME_DIR");
            ChosenDir(input)
            == if Closed(input.probe(systemd), input.uid) then systemd
               else if IsAbsolute(xdg) && Closed(input.probe(xdg), input.uid) then xdg
               else TmpParent(input)
    ensures Derive(input).Unix? ==> Derive(input).parentDir == ChosenDir(input)
    ensures Derive(input).Unix? ==>
              (Derive(input).createParent
               <==> !Closed(input.probe(SystemdRuntimeDir(input.uid)), input.uid)
                    && !(IsAbsolute(TextAt(input.env, "XDG_RUNTIME_DIR"))
                         && Closed(input.probe(TextAt(input.env, "XDG_RUNTIME_DIR")), input.uid)))
  {
    PrivateIsClosed(input.probe(SystemdRuntimeDir(input.uid)), input.uid);
    PrivateIsClosed(input.probe(TextAt(input.env, XDG_ENV)), input.uid);
    DerivedPlan(input);
  }

  /**
   Every unix plan is short enough for sun_path, and the directory it names is the user's and closed to all others,
   or is marked for the host to create. A derived path lies in that directory. An override lies in it exactly when
   its final name is a plain one: the planner probes the dirname of the text, whatever the text resolves to.
   */
  lemma UnixPlanSafe(input: Input)
    requires IsAbsolute(input.tmpdir) && Derive(input).Unix?
    ensures var plan, override := Derive(input), TextAt(input.env, OVERRIDE_ENV);
            && |plan.path| <= 103
            && (plan.createParent || Closed(input.probe(plan.parentDir), input.uid))
            && (Contains(plan.parentDir, plan.path) <==> override == "" || PlainName(FinalName(override)))
  {
    var override, name := TextAt(input.env, OVERRIDE_ENV), FileName(input.discriminator);
    PrivateIsClosed(input.probe(Derive(input).parentDir), input.uid);
    if override != "" {
      ModeBits(input.probe(Dirname(override)).value.mode);
      DirnameContains(override);
    } else {
      DerivedPlan(input);
      CandidateForm(input);
      FileNamePlain(input.discriminator);
      assert Segs(Candidate(input)) == Segs(ChosenDir(input)) + [name];
    }
  }

  /** One directory of the user's, mode 0700, and nothing else. */
  function OnlyDirectory(dir: string, uid: int): string -> Option<DirFacts> {
    d => if d == dir then Some(DirFacts(true, uid, 0x1C0)) else None
  }

  /** An override the planner takes although it resolves to the root, outside the directory that was probed. */
  lemma OverrideEscapes(input: Input)
    requires input.goos != "windows" && TextAt(input.env, OVERRIDE_ENV) == "/x/.."
    requires input.probe == OnlyDirectory("/x", input.uid)
    ensures Derive(input) == Unix("/x/..", "/x", false)
    ensures Segs("/x/..") == [] && NormalForm("/x/..") == "/" && !Contains("/x", "/x/..")
  {
    var value := "/x/..";
    assert value[2] == '/' && value[3] == '.' && CutAt(value, 2) && LastCut(value, 4) == 2 && value[..2] == "/x";
    assert Dirname(value) == "/x";
    OneSegment("x");
    assert value == "/x" + "/" + "..";
    StepLast("/x", "..");
  }

  lemma OneSegment(name: string)
    requires PlainName(name)
    ensures Segs("/" + name) == [name]
  {
    SeparatorStacks();
    assert "" + "/" + name == "/" + name;
    StepLast("", name);
  }

  // ---------------------------------------------------------------- refusals and pipes

  /** A pipe's name: two separators, a dot or a question mark, the word pipe, and one more plain part. */
  lemma PipePaths(value: string)
    ensures IsWindowsPipePath(value)
       <==> exists name: string ::
              && name != "" && '\\' !in name && '/' !in name
              && (value == "\\\\.\\pipe\\" + name || value == "\\\\?\\pipe\\" + name)
  {
    if IsWindowsPipePath(value) {
      var name := value[9..];
      assert value[4..][..5] == "pipe\\" && value[4..][5..] == name;
      assert value == [value[0], value[1], value[2], value[3]] + value[4..];
      assert value[4..] == "pipe\\" + name;
    }
    forall name: string | name != "" && '\\' !in name && '/' !in name
                          && (value == "\\\\.\\pipe\\" + name || value == "\\\\?\\pipe\\" + name)
      ensures IsWindowsPipePath(value)
    {
      assert value[4..] == "pipe\\" + name && value[9..] == name;
    }
  }

  /** Why an override is refused: the first thing that is wrong with it. */
  predicate Names(input: Input, value: string, code: RefusalCode) {
    var facts := input.probe(Dirname(value));
    match code
    case OverridePipeOnUnix => input.goos != "windows" && "\\\\" <= value
    case OverrideInvalidPipe => input.goos == "windows" && !IsWindowsPipePath(value)
    case OverrideNotAbsolute => input.goos != "windows" && !("/" <= value)
    case PathTooLong => input.goos != "windows" && |value| > 103
    case OverrideParentMissing => facts.None?
    case OverrideParentNotDir => facts.Some? && !facts.value.isDirectory
    case OverrideParentNotOwned => facts.Some? && facts.value.isDirectory && facts.value.uid != input.uid
    case OverrideParentMode =>
      facts.Some? && facts.value.isDirectory && facts.value.uid == input.uid
      && !(facts.value.mode & OWNER_BITS == OWNER_BITS
           && facts.value.mode & GROUP_BITS == 0 && facts.value.mode & OTHER_BITS == 0)
  }

  lemma ExactMode(mode: bv32)
    ensures mode & 0x1FF == 0x1C0
       <==> mode & OWNER_BITS == OWNER_BITS && mode & GROUP_BITS == 0 && mode & OTHER_BITS == 0
  {
  }

  /** An override decides alone: it is refused for what is wrong with it, and otherwise taken to the letter. */
  lemma OverrideDecides(input: Input)
    requires TextAt(input.env, "VEX_STUDIO_SOCKET") != ""
    ensures var value := TextAt(input.env, "VEX_STUDIO_SOCKET");
            match Derive(input)
            case Refused(code) => Names(input, value, code)
            case Pipe(path) => path == value && input.goos == "windows" && IsWindowsPipePath(value)
            case Unix(path, parentDir, createParent) =>
              && path == value && parentDir == Dirname(value) && !createParent
              && (forall code :: !Names(input, value, code))
  {
    var facts := input.probe(Dirname(TextAt(input.env, "VEX_STUDIO_SOCKET")));
    if facts.Some? {
      ExactMode(facts.value.mode);
    }
  }

  lemma FileNamesDiffer(a: Discriminator, b: Discriminator)
    ensures FileName(a) == FileName(b) <==> a == b
    ensures PipeName(a) == PipeName(b) <==> a == b
  {
    var n := |"vex-studio-"|;
    assert FileName(a)[n..][..12] == a && FileName(b)[n..][..12] == b;
    var m := |"\\\\.\\pipe\\vex-studio-"|;
    assert PipeName(a)[m..] == a && PipeName(b)[m..] == b;
  }

  /** Two projects of one user never share a derived endpoint, and what Windows derives is a pipe's name. */
  lemma ProjectsKeptApart(input: Input, other: Discriminator)
    requires IsAbsolute(input.tmpdir) && TextAt(input.env, OVERRIDE_ENV) == "" && other != input.discriminator
    requires !Derive(input).Refused? && !Derive(input.(discriminator := other)).Refused?
    ensures Derive(input).path != Derive(input.(discriminator := other)).path
    ensures input.goos == "windows" ==>
              Derive(input) == Pipe("\\\\.\\pipe\\vex-studio-" + input.discriminator)
              && IsWindowsPipePath(Derive(input).path)
  {
    var second := input.(discriminator := other);
    var a, b := FileName(input.discriminator), FileName(other);
    FileNamesDiffer(input.discriminator, other);
    if input.goos == "windows" {
      PipeNameIsPipe(input.discriminator);
    } else {
      DerivedPlan(input);
      DerivedPlan(second);
      CandidateForm(input);
      CandidateForm(second);
      assert ChosenDir(second) == ChosenDir(input);
      var below := Segs(ChosenDir(input));
      assert (below + [a])[|below|] == a && (below + [b])[|below|] == b;
    }
  }

  lemma PipeNameIsPipe(d: Discriminator)
    ensures IsWindowsPipePath(PipeName(d))
  {
    var name := "vex-studio-" + d;
    assert forall i | 0 <= i < |d| :: name[11 + i] == d[i];
    assert '\\' !in name && '/' !in name;
    assert PipeName(d) == "\\\\.\\pipe\\" + name;
    PipePaths(PipeName(d));
  }

  // ---------------------------------------------------------------- rendezvous of two processes

  /**
   The two processes meet whenever the environment-independent directory is private, whatever else they
   see: their environments, temporary directories and every other probe may differ. No 32-bit user is too
   long for the path, so neither is refused.
   */
  lemma SystemdRendezvous(app: Input, bridge: Input)
    requires app.goos == bridge.goos == "linux"
    requires app.uid == bridge.uid && app.discriminator == bridge.discriminator
    requires TextAt(app.env, OVERRIDE_ENV) == TextAt(bridge.env, OVERRIDE_ENV) == ""
    requires SystemdPrivate(app) && SystemdPrivate(bridge)
    ensures Derive(app) == Derive(bridge)
    ensures 0 <= app.uid < 0x1_0000_0000 ==>
              Dialled(Derive(app))
              == Some("/run/user" + "/" + Numerals.Signed(app.uid) + "/" + ("vex-studio-" + app.discriminator + ".sock"))
  {
    if 0 <= app.uid < 0x1_0000_0000 {
      SystemdPath(app.uid, app.discriminator);
    }
  }

  /** Below a directory in normal form other than the root, joining is writing the name behind it. */
  lemma FileBelow(dir: string, name: string)
    requires IsAbsolute(dir) && DirForm(dir) == dir && dir != "/" && PlainName(name)
    ensures var path := Joined([dir, name]);
            path == dir + "/" + name && IsAbsolute(path) && DirForm(path) == path && path != "/"
  {
    NamePushed(dir, name);
    PushJoin(Segs(dir), name, '/');
  }

  lemma TwoNames(a: string, b: string, dir: string)
    requires PlainName(a) && PlainName(b) && dir == "/" + a + "/" + b
    ensures IsAbsolute(dir) && DirForm(dir) == dir && dir != "/"
    ensures Joined(["/" + a, b]) == dir
  {
    OneSegment(a);
    FileBelow("/" + a, b);
  }

  lemma SystemdDir(uid: int)
    ensures var dir := SystemdRuntimeDir(uid);
            dir == "/run/user" + "/" + Numerals.Signed(uid) && IsAbsolute(dir) && DirForm(dir) == dir && dir != "/"
  {
    var user := Numerals.Signed(uid);
    UserDirPlain("", uid);
    assert "" + user == user;
    assert PlainName("run") && PlainName("user");
    TwoNames("run", "user", "/run/user");
    FileBelow("/run/user", user);
  }

  lemma SystemdPath(uid: nat, d: Discriminator)
    requires uid < 0x1_0000_0000
    ensures var path := Joined([SystemdRuntimeDir(uid), FileName(d)]);
            path == "/run/user" + "/" + Numerals.Signed(uid) + "/" + FileName(d) && WithinSunPath(path)
  {
    FileNamePlain(d);
    SystemdDir(uid);
    FileBelow(SystemdRuntimeDir(uid), FileName(d));
    Pow10Ten();
    Numerals.DecimalLength(uid, 10);
  }

  lemma Pow10Ten()
    ensures Numerals.Pow10(10) == 10_000_000_000
  {
    assert Numerals.Pow10(5) == 100_000;
    assert Numerals.Pow10(7) == 100 * Numerals.Pow10(5);
    assert Numerals.Pow10(10) == 1000 * Numerals.Pow10(7);
  }

  /** Two directories hold the same file name at the same path exactly when they have the same form. */
  lemma SameCandidate(a: string, b: string, name: string)
    requires IsAbsolute(a) && IsAbsolute(b) && PlainName(name)
    ensures Joined([a, name]) == Joined([b, name]) <==> DirForm(a) == DirForm(b)
  {
    NamePushed(a, name);
    NamePushed(b, name);
    StackClean(Posix, a, false);
    StackClean(Posix, b, false);
    ReadRender(true, Segs(a), false);
    ReadRender(true, Segs(b), false);
    assert (Segs(a) + [name])[..|Segs(a)|] == Segs(a) && (Segs(b) + [name])[..|Segs(b)|] == Segs(b);
  }

  /**
   The residual divergence, exactly. Two linux processes that differ only in their environment dial the same
   socket if and only if /run/user/<uid> is private, or the directories they fall back to have the same
   form, or neither dials because both paths would be too long.
   */
  lemma EnvironmentResidual(app: Input, env: map<string, string>)
    requires app.goos == "linux" && IsAbsolute(app.tmpdir)
    requires TextAt(app.env, OVERRIDE_ENV) == TextAt(env, OVERRIDE_ENV) == ""
    ensures var bridge := app.(env := env);
            Dialled(Derive(app)) == Dialled(Derive(bridge))
            <==> SystemdPrivate(app)
                 || DirForm(Fallback(app)) == DirForm(Fallback(bridge))
                 || (|Candidate(app)| > SUN_PATH_MAX_BYTES && |Candidate(bridge)| > SUN_PATH_MAX_BYTES)
  {
    var bridge := app.(env := env);
    DerivedPlan(app);
    DerivedPlan(bridge);
    CandidateForm(app);
    CandidateForm(bridge);
    FileNamePlain(app.discriminator);
    SameCandidate(ChosenDir(app), ChosenDir(bridge), FileName(app.discriminator));
  }

  /** The directory below /tmp of a user with a 32-bit number. */
  lemma TmpPath(uid: nat, d: Discriminator, parent: string)
    requires uid < 0x1_0000_0000 && parent == Joined(["/tmp", "vex-studio-" + Numerals.Signed(uid)])
    ensures parent == "/tmp" + "/" + ("vex-studio-" + Numerals.Signed(uid))
    ensures Joined([parent, FileName(d)]) == parent + "/" + FileName(d)
    ensures WithinSunPath(parent + "/" + FileName(d))
  {
    var user := "vex-studio-" + Numerals.Signed(uid);
    UserDirPlain("vex-studio-", uid);
    assert PlainName("tmp") && "/" + "tmp" == "/tmp";
    OneSegment("tmp");
    FileBelow("/tmp", user);
    FileNamePlain(d);
    FileBelow(parent, FileName(d));
    Pow10Ten();
    Numerals.DecimalLength(uid, 10);
  }

  lemma PrivatePath(dir: string, name: string, path: string)
    requires dir == "/x" && PlainName(name) && path == Joined([dir, name])
    ensures path == dir + "/" + name
  {
    assert PlainName("x") && "/" + "x" == "/x";
    OneSegment("x");
    FileBelow(dir, name);
  }

  /** One user whose XDG_RUNTIME_DIR is the private directory /x, with the variable in one process and not the other. */
  lemma EnvironmentsDiverge(app: Input)
    requires app.goos == "linux" && app.tmpdir == "/tmp" && 0 <= app.uid < 0x1_0000_0000
    requires app.env == map[XDG_ENV := "/x"] && app.probe == OnlyDirectory("/x", app.uid)
    ensures var bridge, name := app.(env := map[]), FileName(app.discriminator);
            && Dialled(Derive(app)) == Some("/x" + "/" + name)
            && Dialled(Derive(bridge)) == Some("/tmp" + "/" + ("vex-studio-" + Numerals.Signed(app.uid)) + "/" + name)
  {
    var bridge, name := app.(env := map[]), FileName(app.discriminator);
    FileNamePlain(app.discriminator);
    PrivatePath("/x", name, Joined(["/x", name]));
    SystemdDir(app.uid);
    assert |SystemdRuntimeDir(app.uid)| > |"/x"|;
    TmpPath(app.uid, app.discriminator, TmpParent(bridge));
    assert !SystemdPrivate(app) && !SystemdPrivate(bridge);
    assert UsableRuntimeDir(app) && !UsableRuntimeDir(bridge);
    DerivedPlan(app);
    DerivedPlan(bridge);
  }
}
