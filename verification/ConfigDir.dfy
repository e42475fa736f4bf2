/**
 bridge/internal/configdir/configdir.go, and JoinWindows of lexical.go: which directory holds the user's
 state on each platform. It is never relative to where the program happens to be started.
 */
module ConfigDir {
  import opened Options
  import opened Segments
  import opened PosixPaths
  import opened WindowsPaths

  type Env = map<string, string>

  const APP_NAME := "vex"

  // ---------------------------------------------------------------- JoinWindows

  /** The non-empty parts with a backslash between them. */
  function WinConcat(parts: seq<string>): string {
    if parts == [] then ""
    else
      var before, last := WinConcat(parts[..|parts| - 1]), parts[|parts| - 1];
      if last == "" then before else if before == "" then last else before + "\\" + last
  }

  function FirstPart(parts: seq<string>): string {
    if parts == [] then "" else if parts[0] != "" then parts[0] else FirstPart(parts[1..])
  }

  /** Exactly two leading separators, and something after them. */
  predicate LooksUnc(s: string) {
    |s| > 2 && IsWinSep(s[0]) && IsWinSep(s[1]) && !IsWinSep(s[2])
  }

  /** Leading separators that do not start a share become one. */
  function Collapsed(first: string, joined: string): string {
    var n := SkipSeps(joined, 0);
    if !LooksUnc(first) && n >= 2 then "\\" + joined[n..] else joined
  }

  predicate NamesDevice(part: string) {
    var colon := IndexFrom(part, ':', 0);
    colon != -1 && IsWindowsReservedName(part, colon)
  }

  /** Some part between backslashes names a device; part is what has been read of the current one. */
  predicate HasDevicePart(part: string, s: string)
    decreases |s|
  {
    if s == "" then NamesDevice(part)
    else if s[0] == '\\' then NamesDevice(part) || HasDevicePart("", s[1..])
    else HasDevicePart(part + [s[0]], s[1..])
  }

  function Backslashes(s: string): string {
    seq(|s|, i requires 0 <= i < |s| => if s[i] == '/' then '\\' else s[i])
  }

  function WinJoined(parts: seq<string>): string {
    if WinConcat(parts) == "" then "."
    else
      var joined := Collapsed(FirstPart(parts), WinConcat(parts));
      if HasDevicePart("", joined) then Backslashes(joined) else WinNormal(joined)
  }

  lemma {:induction false} FirstPartSplit(parts: seq<string>, i: nat)
    requires i < |parts|
    ensures FirstPart(parts[..i + 1]) == if FirstPart(parts[..i]) != "" then FirstPart(parts[..i]) else parts[i]
    decreases i
  {
    if i > 0 {
      FirstPartSplit(parts[1..], i - 1);
      assert parts[..i + 1][1..] == parts[1..][..i] && parts[..i][1..] == parts[1..][..i - 1];
    } else {
      assert parts[..1][1..] == [];
    }
  }

  /** The text starts with its first part, and goes on after a separator. */
  lemma {:induction false} ConcatStarts(parts: seq<string>)
    ensures var first, joined := FirstPart(parts), WinConcat(parts);
            && first <= joined && (first == "" <==> joined == "")
            && (|first| < |joined| ==> joined[|first|] == '\\')
    decreases |parts|
  {
    if parts != [] {
      var n := |parts| - 1;
      ConcatStarts(parts[..n]);
      FirstPartSplit(parts, n);
      assert parts[..n + 1] == parts;
    }
  }

  method ContainsReservedDevicePart(joined: string) returns (found: bool)
    ensures found == HasDevicePart("", joined)
  {
    var part := "";
    var i := 0;
    while i < |joined|
      invariant 0 <= i <= |joined|
      invariant HasDevicePart("", joined) == HasDevicePart(part, joined[i..])
    {
      if joined[i] == '\\' {
        if part != "" && NamesDevice(part) {
          return true;
        }
        assert !NamesDevice("");
        part := "";
        while i + 1 < |joined| && joined[i + 1] == '\\'
          invariant 0 <= i < |joined| && joined[i] == '\\'
          invariant HasDevicePart("", joined) == HasDevicePart("", joined[i + 1..])
        {
          i := i + 1;
        }
      } else {
        part := part + [joined[i]];
      }
      i := i + 1;
    }
    found := part != "" && NamesDevice(part);
  }

  method JoinWindows(parts: seq<string>) returns (r: string)
    ensures r == WinJoined(parts)
  {
    var joined, firstPart, haveAny := "", "", false;
    for i := 0 to |parts|
      invariant joined == WinConcat(parts[..i]) && firstPart == FirstPart(parts[..i])
      invariant haveAny == (joined != "") == (firstPart != "")
    {
      assert parts[..i + 1][..i] == parts[..i];
      FirstPartSplit(parts, i);
      if parts[i] == "" {
        continue;
      }
      if !haveAny {
        joined, firstPart, haveAny := parts[i], parts[i], true;
      } else {
        joined := joined + "\\" + parts[i];
      }
    }
    assert parts[..|parts|] == parts;
    if !haveAny {
      return ".";
    }
    ConcatStarts(parts);
    var needsReplace, slashCount := true, 0;
    if IsWinSep(firstPart[0]) {
      slashCount := slashCount + 1;
      if |firstPart| > 1 && IsWinSep(firstPart[1]) {
        slashCount := slashCount + 1;
        if |firstPart| > 2 {
          if IsWinSep(firstPart[2]) {
            slashCount := slashCount + 1;
          } else {
            needsReplace := false;
          }
        }
      }
    }
    ghost var whole := joined;
    if needsReplace {
      while slashCount < |joined| && IsWinSep(joined[slashCount])
        invariant slashCount <= |joined| && SkipSeps(joined, 0) == SkipSeps(joined, slashCount)
      {
        slashCount := slashCount + 1;
      }
      if slashCount >= 2 {
        joined := "\\" + joined[slashCount..];
      }
    }
    assert joined == Collapsed(firstPart, whole);
    var device := ContainsReservedDevicePart(joined);
    if device {
      return Backslashes(joined);
    }
    r := NormalizeWindows(joined);
  }

  // ---------------------------------------------------------------- the resolver

  function Usable(value: string, windows: bool): Option<string> {
    if value == "" then None
    else if windows then (if IsAbsWindows(value) then Some(value) else None)
    else if IsAbsolute(value) then Some(value) else None
  }

  function WindowsDefault(home: string, env: Env): string {
    var appData := Usable(TextAt(env, "APPDATA"), true);
    WinJoined([if appData.Some? then appData.value else WinJoined([home, "AppData", "Roaming"]), APP_NAME])
  }

  function PosixDefault(goos: string, home: string, env: Env): string {
    if goos == "darwin" then Joined([home, "Library", "Application Support", APP_NAME])
    else
      var xdg := Usable(TextAt(env, "XDG_CONFIG_HOME"), false);
      Joined([if xdg.Some? then xdg.value else Joined([home, ".config"]), APP_NAME])
  }

  function ConfigDirectory(goos: string, home: string, env: Env): string {
    var windows := goos == "windows";
    var override := Usable(TextAt(env, "VEX_CONFIG_DIR"), windows);
    if override.Some? then override.value
    else if windows then WindowsDefault(home, env)
    else PosixDefault(goos, home, env)
  }

  // ---------------------------------------------------------------- posix

  lemma PushedTwice(d: string, front: seq<string>, dir: string, last: string, r: string)
    requires Pushed(d, front, dir) && Pushed(dir, [last], r)
    ensures Pushed(d, front + [last], r)
  {
    assert (Segs(d) + front) + [last] == Segs(d) + (front + [last]);
  }

  /** Plain names joined onto an absolute directory are pushed onto its segments. */
  lemma {:induction false} NamesPushed(d: string, names: seq<string>)
    requires IsAbsolute(d) && names != [] && forall i | 0 <= i < |names| :: PlainName(names[i])
    ensures Pushed(d, names, Joined([d] + names))
    decreases |names|
  {
    var n := |names| - 1;
    var front, last := names[..n], names[n];
    assert names == front + [last];
    if n == 0 {
      assert [d] + names == [d, last] && names == [last];
      NamePushed(d, last);
    } else {
      var dir := Joined([d] + front);
      NamesPushed(d, front);
      NamePushed(dir, last);
      PushedTwice(d, front, dir, last, Joined([dir, last]));
      DirectoryAssociates(d, front, last);
      assert ([d] + front) + [last] == [d] + names;
    }
  }

  lemma DirectoryAssociates(d: string, front: seq<string>, last: string)
    requires IsAbsolute(d)
    ensures Joined([Joined([d] + front), last]) == Joined(([d] + front) + [last])
  {
    JoinLeftAssociative([d] + front, [last]);
    assert [d][..0] == [];
    ConcatSplit([d], front);
    assert [Joined([d] + front)] + [last] == [Joined([d] + front), last];
  }

  /** Where the posix config directory is: below home, or below an absolute XDG_CONFIG_HOME off macOS. */
  function PosixBase(goos: string, home: string, env: Env): (string, seq<string>) {
    var xdg := Usable(TextAt(env, "XDG_CONFIG_HOME"), false);
    if goos == "darwin" then (home, ["Library", "Application Support", APP_NAME])
    else if xdg.Some? then (xdg.value, [APP_NAME])
    else (home, [".config", APP_NAME])
  }

  /** Without an override the posix directory is absolute and normal: the base's segments, then the names. */
  lemma PosixConfigDir(goos: string, home: string, env: Env)
    requires IsAbsolute(home)
    ensures var (base, names) := PosixBase(goos, home, env); Pushed(base, names, PosixDefault(goos, home, env))
  {
    var xdg := Usable(TextAt(env, "XDG_CONFIG_HOME"), false);
    if goos == "darwin" {
      var names := ["Library", "Application Support", APP_NAME];
      NamesPushed(home, names);
      assert [home] + names == [home, "Library", "Application Support", APP_NAME];
    } else if xdg.Some? {
      NamePushed(xdg.value, APP_NAME);
    } else {
      var config := Joined([home, ".config"]);
      NamePushed(home, ".config");
      NamePushed(config, APP_NAME);
      PushedTwice(home, [".config"], config, APP_NAME, Joined([config, APP_NAME]));
      assert [".config"] + [APP_NAME] == [".config", APP_NAME];
    }
  }

  // ---------------------------------------------------------------- Windows

  /** A device namespace prefix, with or without anything behind it. */
  predicate DeviceRooted(s: string) {
    LooksUnc(s) && (s[2] == '.' || s[2] == '?') && (|s| == 3 || IsWinSep(s[3]))
  }

  /** An absolute value outside the device namespaces. */
  predicate Grounded(s: string) {
    IsAbsWindows(s) && !DeviceRooted(s)
  }

  lemma ShareGrounded(server: string, rest: string)
    requires server != "" && SepFree(Windows, server) && server !in {".", "?"}
    ensures Grounded("\\\\" + server + "\\" + rest)
  {
    var s := "\\\\" + server + "\\" + rest;
    assert s[2] == server[0];
    assert s[3] == if |server| > 1 then server[1] else '\\';
    assert |server| == 1 ==> server == [server[0]];
  }

  lemma RootGrounded(s: string, body: string)
    requires Grounded(s) && (body == "" || !IsWinSep(body[0]))
    ensures Grounded(Root(s) + body)
  {
    if HasShare(s) {
      var server, share := Server(s), Share(s);
      ShareGrounded(server, share + "\\" + body);
      assert ("\\\\" + server + "\\" + share + "\\") + body == "\\\\" + server + "\\" + (share + "\\" + body);
    }
  }

  lemma RenderedGrounded(s: string, r: string)
    requires Grounded(s) && r == RenderBelow(Root(s), Below(s), IsWinSep(s[|s| - 1]))
    ensures Grounded(r)
  {
    var trailing := IsWinSep(s[|s| - 1]);
    var body := Join(Below(s), '\\') + (if trailing && Below(s) != [] then "\\" else "");
    BelowClean(s);
    ReadTail(Below(s), trailing);
    RootGrounded(s, body);
    assert r == Root(s) + body;
  }

  lemma NormalGrounded(s: string)
    requires Grounded(s)
    ensures Grounded(WinNormal(s))
  {
    AbsoluteForm(s);
    RenderedGrounded(s, WinNormal(s));
  }

  /** Joining onto an absolute directory outside the device namespaces stays absolute and outside them. */
  lemma JoinStaysGrounded(parts: seq<string>)
    requires Grounded(FirstPart(parts))
    ensures Grounded(WinJoined(parts))
  {
    ConcatStarts(parts);
    var joined := Collapsed(FirstPart(parts), WinConcat(parts));
    NormalGrounded(joined);
  }

  predicate StartsWithSeparator(s: string) {
    s != "" && IsWinSep(s[0])
  }

  lemma SeparatorStays(s: string)
    requires StartsWithSeparator(s)
    ensures StartsWithSeparator(WinNormal(s))
  {
    if |s| > 1 {
      NotReserved(s);
    }
  }

  /** Joining onto an absolute directory stays absolute, in the device namespaces too. */
  lemma JoinStaysAbsolute(parts: seq<string>)
    requires IsAbsWindows(FirstPart(parts))
    ensures IsAbsWindows(WinJoined(parts))
  {
    if StartsWithSeparator(FirstPart(parts)) {
      ConcatStarts(parts);
      SeparatorStays(Collapsed(FirstPart(parts), WinConcat(parts)));
    } else {
      JoinStaysGrounded(parts);
    }
  }

  predicate AbsoluteOn(goos: string, path: string) {
    if goos == "windows" then IsAbsWindows(path) else IsAbsolute(path)
  }

  /** An absolute VEX_CONFIG_DIR is the answer on every platform, to the letter; any other is as good as unset. */
  lemma OverrideDecides(goos: string, home: string, env: Env)
    ensures var override := TextAt(env, "VEX_CONFIG_DIR");
            ConfigDirectory(goos, home, env)
            == if AbsoluteOn(goos, override) then override else ConfigDirectory(goos, home, env - {"VEX_CONFIG_DIR"})
  {
    var without := env - {"VEX_CONFIG_DIR"};
    assert forall name | name != "VEX_CONFIG_DIR" :: TextAt(without, name) == TextAt(env, name);
  }

  /**
   With an absolute home the config directory is absolute on every platform, whatever the environment
   holds: empty and relative values are as good as unset, so no typo puts state in the working directory.
   */
  lemma NeverRelative(goos: string, home: string, env: Env)
    requires AbsoluteOn(goos, home)
    ensures AbsoluteOn(goos, ConfigDirectory(goos, home, env))
  {
    if goos == "windows" {
      var appData := Usable(TextAt(env, "APPDATA"), true);
      JoinStaysAbsolute([home, "AppData", "Roaming"]);
      JoinStaysAbsolute([if appData.Some? then appData.value else WinJoined([home, "AppData", "Roaming"]), APP_NAME]);
    } else if Usable(TextAt(env, "VEX_CONFIG_DIR"), false).None? {
      PosixConfigDir(goos, home, env);
    }
  }
}
