/**
 What JoinWindows of bridge/internal/configdir/lexical.go makes of a directory and names below it, and with it where
 configdir.go puts the user's state on Windows.
 */
module WindowsJoin {
  import opened ConfigDir
  import opened Options
  import opened SegmentLaws
  import opened Segments
  import opened WindowsPaths

  // ---------------------------------------------------------------- leading separators

  predicate TwoSeparators(s: string) {
    |s| >= 2 && IsWinSep(s[0]) && IsWinSep(s[1])
  }

  lemma LeadingSeparator(s: string, k: bool)
    requires s != "" && IsWinSep(s[0])
    ensures Stack(Windows, s, k) == Stack(Windows, s[1..], k)
  {
    assert Split(Windows, s) == [""] + Split(Windows, s[1..]);
    assert ([""] + Split(Windows, s[1..]))[1..] == Split(Windows, s[1..]);
  }

  /** Separators in front of a text change nothing below the root. */
  lemma {:induction false} LeadingSeparators(s: string, i: nat, k: bool)
    requires i <= |s| && forall j | 0 <= j < i :: IsWinSep(s[j])
    ensures Stack(Windows, s, k) == Stack(Windows, s[i..], k)
    decreases i
  {
    if i > 0 {
      LeadingSeparator(s, k);
      LeadingSeparators(s[1..], i - 1, k);
      assert s[1..][i - 1..] == s[i..];
    } else {
      assert s[0..] == s;
    }
  }

  lemma CollapsedStack(first: string, joined: string)
    ensures Stack(Windows, Collapsed(first, joined), false) == Stack(Windows, joined, false)
    ensures !LooksUnc(first) ==> !TwoSeparators(Collapsed(first, joined))
  {
    var n := SkipSeps(joined, 0);
    LeadingSeparators(joined, n, false);
    if !LooksUnc(first) && n >= 2 {
      LeadingSeparator("\\" + joined[n..], false);
      assert ("\\" + joined[n..])[1..] == joined[n..];
    } else if |joined| >= 2 && IsWinSep(joined[0]) && IsWinSep(joined[1]) {
      assert n >= 2;
    }
  }

  // ---------------------------------------------------------------- a share is never made up

  lemma {:induction false} StartsWithFirst(stack: seq<string>)
    requires stack != [] && stack[0] != ""
    ensures var text := Join(stack, '\\'); text != "" && text[0] == stack[0][0]
    decreases |stack|
  {
    if |stack| > 1 {
      StartsWithFirst(Front(stack));
    }
  }

  lemma TailStarts(value: string, p: Parsed)
    requires p.Rooted? && p.rootEnd <= |value| && value != ""
    ensures WalkTail(value, p) != "" ==> !IsWinSep(WalkTail(value, p)[0])
  {
    var stack := Stack(Windows, value[p.rootEnd..], !p.absolute);
    StackClean(Windows, value[p.rootEnd..], !p.absolute);
    JoinNonEmpty(Windows, stack, !p.absolute);
    if stack != [] {
      StartsWithFirst(stack);
    }
  }

  lemma NormalKeepsNoShare(s: string)
    requires !TwoSeparators(s)
    ensures !TwoSeparators(WinNormal(s))
  {
    if |s| >= 2 {
      TailStarts(s, ParseRoot(s));
    }
  }

  /** Where the first part does not start a share, no joining of parts makes one up, nor a device namespace. */
  lemma NoShareMadeUp(parts: seq<string>)
    requires !LooksUnc(FirstPart(parts))
    ensures !TwoSeparators(WinJoined(parts)) && !HasShare(WinJoined(parts))
  {
    if WinConcat(parts) != "" {
      var joined := Collapsed(FirstPart(parts), WinConcat(parts));
      CollapsedStack(FirstPart(parts), WinConcat(parts));
      NormalKeepsNoShare(joined);
    }
  }

  // ---------------------------------------------------------------- names below a directory

  /** An absolute directory outside the device namespaces; one on a share names server and share. */
  predicate Directory(d: string) {
    Grounded(d) && (LooksUnc(d) ==> HasShare(d))
  }

  /** What follows a directory and a separator is resolved on top of it, below the same root. */
  lemma RootStays(d: string, rest: string, s: string)
    requires Directory(d) && rest != "" && !IsWinSep(rest[|rest| - 1]) && s == Collapsed(d, d + "\\" + rest)
    ensures IsAbsWindows(s) && !DeviceNamespace(s) && Root(s) == Root(d)
    ensures Below(s) == Resolve(Below(d), Split(Windows, rest), false)
    ensures !IsWinSep(s[|s| - 1])
  {
    var joined := d + "\\" + rest;
    assert joined == d + ['\\'] + rest && joined[|joined| - 1] == rest[|rest| - 1];
    if HasShare(d) {
      ShareStays(d, rest, joined);
    } else if IsWinSep(d[0]) {
      SeparatorStands(d, rest, joined, s);
    } else {
      DriveStands(d, rest, joined);
    }
  }

  lemma SeparatorStands(d: string, rest: string, joined: string, s: string)
    requires Directory(d) && !HasShare(d) && IsWinSep(d[0])
    requires rest != "" && !IsWinSep(rest[|rest| - 1]) && joined == d + "\\" + rest && s == Collapsed(d, joined)
    ensures IsAbsWindows(s) && !HasShare(s) && Root(s) == Root(d) && !IsWinSep(s[|s| - 1])
    ensures Below(s) == Resolve(Below(d), Split(Windows, rest), false)
  {
    CollapsedStack(d, joined);
    assert joined == d + ['\\'] + rest;
    StackConcat(Windows, d, '\\', rest, false);
    CollapsedEnd(d, joined);
  }

  lemma CollapsedEnd(first: string, joined: string)
    requires joined != "" && IsWinSep(joined[0])
    ensures var s := Collapsed(first, joined); s != "" && IsWinSep(s[0])
    ensures var s := Collapsed(first, joined); !IsWinSep(joined[|joined| - 1]) ==> s[|s| - 1] == joined[|joined| - 1]
  {
  }

  lemma DriveStands(d: string, rest: string, joined: string)
    requires IsAbsWindows(d) && !IsWinSep(d[0]) && joined == d + "\\" + rest
    ensures Collapsed(d, joined) == joined && IsAbsWindows(joined) && !HasShare(joined) && Root(joined) == Root(d)
    ensures Below(joined) == Resolve(Below(d), Split(Windows, rest), false)
  {
    assert SkipSeps(joined, 0) == 0;
    assert joined[3..] == d[3..] + ['\\'] + rest && joined[..2] == d[..2];
    StackConcat(Windows, d[3..], '\\', rest, false);
  }

  lemma ShareStays(d: string, rest: string, joined: string)
    requires Directory(d) && HasShare(d) && joined == d + "\\" + rest
    ensures HasShare(joined) && Server(joined) == Server(d) && Share(joined) == Share(d)
    ensures Below(joined) == Resolve(Below(d), Split(Windows, rest), false)
    ensures LooksUnc(d)
  {
    var j1 := SkipName(d, 2);
    var j2 := SkipSeps(d, j1);
    var j3 := SkipName(d, j2);
    assert forall i | 0 <= i < |d| :: joined[i] == d[i];
    assert SkipName(joined, 2) == j1;
    assert SkipSeps(joined, j1) == j2;
    assert joined[j3] == if j3 < |d| then d[j3] else '\\';
    assert SkipName(joined, j2) == j3;
    assert joined[2..j1] == d[2..j1] && joined[j2..j3] == d[j2..j3];
    assert joined[j3..] == d[j3..] + ['\\'] + rest;
    StackConcat(Windows, d[j3..], '\\', rest, false);
  }

  /** A name of one segment that stands for itself. */
  predicate PlainName(name: string) {
    SepFree(Windows, name) && name !in {"", ".", ".."}
  }

  predicate PlainNames(names: seq<string>) {
    forall i | 0 <= i < |names| :: PlainName(names[i])
  }

  lemma {:induction false} NamesPile(stack: seq<string>, names: seq<string>)
    requires PlainNames(names)
    ensures Resolve(stack, names, false) == stack + names
    decreases |names|
  {
    if names != [] {
      NamesPile(stack + [names[0]], names[1..]);
      assert (stack + [names[0]]) + names[1..] == stack + names;
    } else {
      assert stack + names == stack;
    }
  }

  lemma {:induction false} NamesJoin(names: seq<string>)
    requires PlainNames(names) && names != []
    ensures Split(Windows, Join(names, '\\')) == names
    ensures var text := Join(names, '\\'); text != "" && !IsWinSep(text[|text| - 1])
  {
    SplitJoin(Windows, names, '\\');
    JoinNonEmpty(Windows, names, true);
    var text, last := Join(names, '\\'), Last(names);
    assert text[|text| - |last|..] == last;
    assert text[|text| - 1] == last[|last| - 1];
  }

  lemma {:induction false} ConcatNames(d: string, names: seq<string>)
    requires d != "" && names != [] && PlainNames(names)
    ensures WinConcat([d] + names) == d + "\\" + Join(names, '\\')
    decreases |names|
  {
    var n := |names| - 1;
    var all := [d] + names;
    assert all[..n + 1] == [d] + names[..n] && all[n + 1] == names[n];
    if n > 0 {
      ConcatNames(d, names[..n]);
      assert d + "\\" + Join(names[..n], '\\') + "\\" + names[n] == d + "\\" + (Join(names[..n], '\\') + ['\\'] + names[n]);
    } else {
      assert [d] + names[..0] == [d] && [d][..0] == [];
      assert WinConcat([d]) == d;
    }
  }

  /** The directory r stands right below d, names down, in normal form. */
  predicate Stands(d: string, names: seq<string>, r: string)
    requires IsAbsWindows(d)
  {
    && r == RenderBelow(Root(d), Below(d) + names, false)
    && Directory(r) && Root(r) == Root(d) && Below(r) == Below(d) + names
  }

  lemma RenderedStands(s: string, d: string, names: seq<string>, r: string)
    requires Directory(d) && IsAbsWindows(s) && !DeviceNamespace(s) && !IsWinSep(s[|s| - 1])
    requires Root(s) == Root(d) && Below(s) == Below(d) + names && r == RenderBelow(Root(s), Below(s), false)
    ensures Stands(d, names, r)
  {
    ReadRendered(s, r);
    BelowClean(s);
    RenderedDirectory(d, Below(s), r);
  }

  lemma RenderedDirectory(d: string, below: seq<string>, r: string)
    requires Directory(d) && Clean(Windows, below, false) && r == RenderBelow(Root(d), below, false)
    ensures Directory(r)
  {
    ReadTail(below, false);
    RootIsDirectory(d, Join(below, '\\'));
    assert r == Root(d) + Join(below, '\\');
  }

  lemma RootIsDirectory(d: string, body: string)
    requires Directory(d) && (body == "" || !IsWinSep(body[0]))
    ensures Directory(Root(d) + body)
  {
    RootGrounded(d, body);
    if HasShare(d) {
      ReadShare(Server(d), Share(d), body);
    }
  }

  /** The text an absolute directory and names below it normalise to, and the place it stands for. */
  lemma NamesStand(d: string, names: seq<string>, s: string, r: string)
    requires Directory(d) && PlainNames(names) && names != [] && s == Collapsed(d, WinConcat([d] + names))
    requires r == RenderBelow(Root(d), Below(d) + names, false)
    ensures IsAbsWindows(s) && WinNormal(s) == r && Stands(d, names, r)
  {
    var rest := Join(names, '\\');
    ConcatNames(d, names);
    NamesJoin(names);
    RootStays(d, rest, s);
    NamesPile(Below(d), names);
    AbsoluteForm(s);
    RenderedStands(s, d, names, r);
  }

  /** Plain names joined onto a directory stand right below it, unless a part of the text names a device. */
  lemma JoinedBelow(d: string, names: seq<string>)
    requires Directory(d) && PlainNames(names) && names != []
    requires !HasDevicePart("", Collapsed(d, WinConcat([d] + names)))
    ensures Stands(d, names, WinJoined([d] + names))
  {
    assert FirstPart([d] + names) == d;
    ConcatNames(d, names);
    NamesStand(d, names, Collapsed(d, WinConcat([d] + names)), RenderBelow(Root(d), Below(d) + names, false));
  }

  // ---------------------------------------------------------------- the state directory

  lemma RootHasNoSlash(d: string)
    requires Directory(d)
    ensures '/' !in Root(d)
  {
    if HasShare(d) {
      assert SepFree(Windows, Server(d)) && SepFree(Windows, Share(d));
    } else if !IsWinSep(d[0]) {
      assert d[0] != '/' && d[1] == ':';
    }
  }

  lemma {:induction false} JoinHasNoSlash(stack: seq<string>)
    requires forall i | 0 <= i < |stack| :: '/' !in stack[i]
    ensures '/' !in Join(stack, '\\')
    decreases |stack|
  {
    if |stack| > 1 {
      JoinHasNoSlash(Front(stack));
    }
  }

  /** A directory below its root in the form a join returns. */
  predicate InForm(d: string) {
    Directory(d) && Below(d) != [] && d == RenderBelow(Root(d), Below(d), false)
  }

  lemma NotCollapsed(d: string, rest: string, text: string)
    requires InForm(d) && text == d + rest
    ensures Collapsed(d, text) == text
  {
    if !LooksUnc(d) && IsWinSep(d[0]) {
      BelowClean(d);
      FirstChar(Below(d));
      assert d[1] == Join(Below(d), '\\')[0] && text[1] == d[1];
    }
  }

  lemma SlashFree(d: string, below: seq<string>)
    requires Directory(d) && Clean(Windows, below, false)
    ensures var text := RenderBelow(Root(d), below, false); Backslashes(text) == text
  {
    RootHasNoSlash(d);
    JoinHasNoSlash(below);
    var text := RenderBelow(Root(d), below, false);
    assert text == Root(d) + Join(below, '\\');
    assert '/' !in text;
  }

  lemma OneBehind(root: string, below: seq<string>, name: string)
    requires below != []
    ensures RenderBelow(root, below + [name], false) == RenderBelow(root, below, false) + ("\\" + name)
  {
    PushJoin(below, name, '\\');
  }

  /** One more name behind a directory in normal form is that form already. */
  lemma WrittenBelow(d: string, name: string, text: string)
    requires InForm(d) && PlainName(name) && text == d + ("\\" + name)
    ensures text == RenderBelow(Root(d), Below(d) + [name], false)
    ensures WinConcat([d] + [name]) == text && Collapsed(d, text) == text
  {
    ConcatNames(d, [name]);
    OneBehind(Root(d), Below(d), name);
    NotCollapsed(d, "\\" + name, text);
  }

  /** Below a directory already in normal form it makes no difference whether a part names a device. */
  lemma OneBelow(d: string, name: string, r: string)
    requires InForm(d) && PlainName(name) && r == WinJoined([d] + [name])
    ensures Stands(d, [name], r)
  {
    var text := d + ("\\" + name);
    WrittenBelow(d, name, text);
    BelowClean(d);
    SlashFree(d, Below(d) + [name]);
    assert FirstPart([d] + [name]) == d;
    NamesStand(d, [name], text, text);
    assert r == text;
  }

  lemma StandsInForm(d: string, names: seq<string>, r: string)
    requires IsAbsWindows(d) && names != [] && Stands(d, names, r)
    ensures InForm(r)
  {
  }

  lemma StandsTwice(d: string, front: seq<string>, dir: string, name: string, r: string)
    requires IsAbsWindows(d) && IsAbsWindows(dir) && Stands(d, front, dir) && Stands(dir, [name], r)
    ensures Stands(d, front + [name], r)
  {
    assert Below(d) + front + [name] == Below(d) + (front + [name]);
  }

  /** What the resolver takes for absolute: a leading separator of either kind, or a drive letter, a colon and one. */
  lemma AbsoluteValues(value: string)
    ensures IsAbsWindows(value)
       <==> || "\\" <= value || "/" <= value
            || exists drive: char, rest: string ::
                 ('a' <= drive <= 'z' || 'A' <= drive <= 'Z')
                 && (value == [drive] + ":\\" + rest || value == [drive] + ":/" + rest)
  {
    if |value| > 2 && IsDriveLetter(value[0]) && value[1] == ':' && IsWinSep(value[2]) {
      assert value == [value[0]] + [value[1], value[2]] + value[3..];
      assert [value[1], value[2]] == ":\\" || [value[1], value[2]] == ":/";
    }
  }

  /** Where the Windows state directory is: below APPDATA if that is absolute, else below home. */
  function WindowsBase(home: string, env: Env): (string, seq<string>) {
    if IsAbsWindows(TextAt(env, "APPDATA")) then (TextAt(env, "APPDATA"), ["vex"])
    else (home, ["AppData", "Roaming", "vex"])
  }

  /** The text of the base and the names joined onto it first. */
  function BaseText(base: string, names: seq<string>): string {
    Collapsed(base, WinConcat([base] + (if |names| <= 2 then names else names[..2])))
  }

  /** Joined in two steps, as the resolver does. */
  lemma JoinedTwice(d: string, front: seq<string>, dir: string, last: string, r: string)
    requires Directory(d) && front != [] && PlainNames(front) && PlainName(last)
    requires !HasDevicePart("", Collapsed(d, WinConcat([d] + front)))
    requires dir == WinJoined([d] + front) && r == WinJoined([dir] + [last])
    ensures Stands(d, front + [last], r)
  {
    JoinedBelow(d, front);
    StandsInForm(d, front, dir);
    OneBelow(dir, last, r);
    StandsTwice(d, front, dir, last, r);
  }

  lemma BelowAppData(base: string, names: seq<string>)
    requires Directory(base) && names == ["vex"] && !HasDevicePart("", BaseText(base, names))
    ensures Stands(base, names, WinJoined([base, APP_NAME]))
  {
    assert [base] + names == [base, APP_NAME] && PlainName(APP_NAME);
    JoinedBelow(base, names);
  }

  lemma FixedNames()
    ensures PlainNames(["AppData", "Roaming"]) && PlainName(APP_NAME)
  {
  }

  lemma BelowHome(home: string, front: seq<string>, dir: string, names: seq<string>)
    requires Directory(home) && |front| == 2 && PlainNames(front) && PlainName(APP_NAME)
    requires dir == WinJoined([home] + front) && names == front + [APP_NAME] && !HasDevicePart("", BaseText(home, names))
    ensures Stands(home, names, WinJoined([dir, APP_NAME]))
  {
    assert names[..2] == front && [dir] + [APP_NAME] == [dir, APP_NAME];
    JoinedTwice(home, front, dir, APP_NAME, WinJoined([dir] + [APP_NAME]));
  }

  /**
   Without an override the Windows directory is the fixed names right below its base, in normal form, where the base
   is a directory and no part of its text names a device.
   */
  lemma WindowsConfigDir(home: string, env: Env)
    requires var (base, names) := WindowsBase(home, env); Directory(base) && !HasDevicePart("", BaseText(base, names))
    ensures var (base, names) := WindowsBase(home, env); Stands(base, names, WindowsDefault(home, env))
  {
    var (base, names) := WindowsBase(home, env);
    if |names| == 1 {
      BelowAppData(base, names);
    } else {
      var front := ["AppData", "Roaming"];
      FixedNames();
      assert [home] + front == [home, "AppData", "Roaming"] && front + [APP_NAME] == names;
      BelowHome(home, front, WinJoined([home] + front), names);
    }
  }

  // ---------------------------------------------------------------- parts that name a device

  /** A part names a device when a reserved name stands in front of its first colon. */
  lemma DeviceNamed(part: string)
    ensures NamesDevice(part)
       <==> exists name: string, rest: string ::
              part == name + ":" + rest && ':' !in name && IsDeviceName(ToUpper(name))
  {
    var colon := IndexFrom(part, ':', 0);
    if colon != -1 {
      assert part == part[..colon] + ":" + part[colon + 1..];
    }
    forall name: string, rest: string | part == name + ":" + rest && ':' !in name
      ensures colon == |name| && part[..colon] == name
    {
      assert part[|name|] == ':' && forall i | 0 <= i < |name| :: part[i] == name[i];
    }
  }

  /** A stretch of the text between backslashes or its ends. */
  predicate IsPart(s: string, i: int, j: int) {
    && 0 <= i <= j <= |s| && '\\' !in s[i..j]
    && (i == 0 || s[i - 1] == '\\') && (j == |s| || s[j] == '\\')
  }

  lemma FirstPartOnly(part: string, rest: string, text: string, i: int, j: int)
    requires '\\' !in part && text == part + "\\" + rest
    ensures IsPart(text, i, j) && i <= |part| ==> i == 0 && j == |part|
    ensures i > |part| ==> (IsPart(text, i, j) <==> IsPart(rest, i - |part| - 1, j - |part| - 1))
    ensures IsPart(text, 0, |part|) && text[..|part|] == part
    ensures |part| < i <= j <= |text| ==> text[i..j] == rest[i - |part| - 1..j - |part| - 1]
  {
    var n := |part| + 1;
    assert forall k | 0 <= k < |part| :: text[k] == part[k] && part[k] != '\\';
    assert text[|part|] == '\\' && forall k | n <= k < |text| :: text[k] == rest[k - n];
    if IsPart(text, i, j) {
      forall k | i <= k < j ensures text[k] != '\\' {
        assert text[k] == text[i..j][k - i];
      }
    }
    if |part| < i <= j <= |text| {
      assert text[i..j] == rest[i - n..j - n];
    }
  }

  lemma OnlyPart(part: string)
    requires '\\' !in part
    ensures NamesDevice(part) <==> exists i, j :: IsPart(part, i, j) && NamesDevice(part[i..j])
  {
    assert IsPart(part, 0, |part|) && part[0..|part|] == part;
    assert forall k | 0 <= k < |part| :: part[k] != '\\';
    assert forall i, j | IsPart(part, i, j) :: i == 0 && j == |part|;
  }

  /** The scan finds exactly the parts of the text: with part read already, those of part and what follows. */
  lemma {:induction false} PartsScanned(part: string, s: string)
    requires '\\' !in part
    ensures HasDevicePart(part, s)
       <==> exists i, j :: IsPart(part + s, i, j) && NamesDevice((part + s)[i..j])
    decreases |s|
  {
    var text := part + s;
    if s == "" {
      assert text == part;
      OnlyPart(part);
    } else if s[0] == '\\' {
      assert "" + s[1..] == s[1..];
      PartsScanned("", s[1..]);
      FirstOrLater(part, s[1..], text);
    } else {
      assert (part + [s[0]]) + s[1..] == text;
      PartsScanned(part + [s[0]], s[1..]);
    }
  }

  lemma LaterPart(part: string, rest: string, text: string, i: int, j: int)
    requires '\\' !in part && text == part + "\\" + rest && IsPart(rest, i, j) && NamesDevice(rest[i..j])
    ensures exists i, j :: IsPart(text, i, j) && NamesDevice(text[i..j])
  {
    var n := |part| + 1;
    FirstPartOnly(part, rest, text, i + n, j + n);
    assert IsPart(text, i + n, j + n) && NamesDevice(text[i + n..j + n]);
  }

  lemma SomePart(part: string, rest: string, text: string, i: int, j: int)
    requires '\\' !in part && text == part + "\\" + rest && IsPart(text, i, j) && NamesDevice(text[i..j])
    ensures NamesDevice(part) || exists i, j :: IsPart(rest, i, j) && NamesDevice(rest[i..j])
  {
    var n := |part| + 1;
    FirstPartOnly(part, rest, text, i, j);
    if i > |part| {
      assert IsPart(rest, i - n, j - n) && NamesDevice(rest[i - n..j - n]);
    }
  }

  lemma FirstOrLater(part: string, rest: string, text: string)
    requires '\\' !in part && text == part + "\\" + rest
    ensures (exists i, j :: IsPart(text, i, j) && NamesDevice(text[i..j]))
       <==> NamesDevice(part) || exists i, j :: IsPart(rest, i, j) && NamesDevice(rest[i..j])
  {
    if i, j :| IsPart(text, i, j) && NamesDevice(text[i..j]) {
      SomePart(part, rest, text, i, j);
    }
    if i, j :| IsPart(rest, i, j) && NamesDevice(rest[i..j]) {
      LaterPart(part, rest, text, i, j);
    }
    FirstPartOnly(part, rest, text, 0, |part|);
    assert text[0..|part|] == part;
  }

  /**
   One part that names a device stops all resolution: behind a drive or a share the parts come out as they were
   written, with backslashes, ".." included.
   */
  lemma DeviceStopsResolution(parts: seq<string>)
    requires var first := FirstPart(parts); first != "" && (LooksUnc(first) || !IsWinSep(first[0]))
    requires exists i, j :: IsPart(WinConcat(parts), i, j) && NamesDevice(WinConcat(parts)[i..j])
    ensures var text, r := WinConcat(parts), WinJoined(parts);
            |r| == |text| && forall i | 0 <= i < |r| :: r[i] == if IsWinSep(text[i]) then '\\' else text[i]
  {
    var text := WinConcat(parts);
    ConcatStarts(parts);
    assert Collapsed(FirstPart(parts), text) == text;
    PartsScanned("", text);
    assert "" + text == text;
  }
}
