/**
 normalizeWindows of bridge/internal/configdir/lexical.go: the root parser and the guards around the
 segment walk.
 */
module WindowsPaths {
  import opened Segments

  predicate IsWinSep(c: char) {
    Windows.IsSep(c)
  }

  predicate IsDriveLetter(c: char) {
    'a' <= c <= 'z' || 'A' <= c <= 'Z'
  }

  function Upper(c: char): char {
    if 'a' <= c <= 'z' then c - 'a' + 'A' else c
  }

  function ToUpper(s: string): string {
    seq(|s|, i requires 0 <= i < |s| => Upper(s[i]))
  }

  /**
   The MS-DOS device names, upper-cased: CON, PRN, AUX, NUL, and COM or LPT followed by 1 to 9 or by
   a superscript 1, 2 or 3 in its two UTF-8 bytes.
   */
  predicate IsDeviceName(name: string) {
    || name == "CON" || name == "PRN" || name == "AUX" || name == "NUL"
    || (|name| > 3 && (name[..3] == "COM" || name[..3] == "LPT")
        && ((|name| == 4 && '1' <= name[3] <= '9')
            || (|name| == 5 && name[3] == '\U{C2}' && name[4] in {'\U{B9}', '\U{B2}', '\U{B3}'})))
  }

  /**
   A colonIndex of -1 takes everything but the last byte. Only ASCII case is folded: no other
   character has an upper case that occurs in the device names.
   */
  predicate IsWindowsReservedName(value: string, colonIndex: int) {
    var at := if colonIndex < 0 then colonIndex + |value| else colonIndex;
    0 <= at <= |value| && IsDeviceName(ToUpper(value[..at]))
  }

  function IndexFrom(value: string, c: char, from: nat): (k: int)
    ensures k == -1 || (from <= k < |value| && value[k] == c)
    ensures forall i | from <= i < |value| && (k == -1 || i < k) :: value[i] != c
    decreases |value| - from
  {
    if from >= |value| then -1
    else if value[from] == c then from
    else IndexFrom(value, c, from + 1)
  }

  function SkipName(value: string, j: nat): (k: nat)
    requires j <= |value|
    ensures j <= k <= |value|
    ensures forall i | j <= i < k :: !IsWinSep(value[i])
    ensures k < |value| ==> IsWinSep(value[k])
    decreases |value| - j
  {
    if j < |value| && !IsWinSep(value[j]) then SkipName(value, j + 1) else j
  }

  function SkipSeps(value: string, j: nat): (k: nat)
    requires j <= |value|
    ensures j <= k <= |value|
    ensures forall i | j <= i < k :: IsWinSep(value[i])
    ensures k < |value| ==> !IsWinSep(value[k])
    decreases |value| - j
  {
    if j < |value| && IsWinSep(value[j]) then SkipSeps(value, j + 1) else j
  }

  // ---------------------------------------------------------------- specification

  /** What the root parser finds: the answer itself, or where the segment walk starts. */
  datatype Parsed =
    | Whole(text: string)
    | Rooted(device: string, hasDevice: bool, absolute: bool, rootEnd: nat)

  function ParseUnc(value: string): (p: Parsed)
    requires |value| >= 2
    ensures p.Rooted? ==> p.rootEnd <= |value| && p.absolute
  {
    var j1 := SkipName(value, 2);
    var j2 := SkipSeps(value, j1);
    if j1 == |value| || j1 == 2 || j2 == |value| then Rooted("", false, true, 0)
    else
      var server := value[2..j1];
      var j3 := SkipName(value, j2);
      if server == "." || server == "?" then
        var colon := IndexFrom(value, ':', 0);
        if colon >= 4 && IsWindowsReservedName(value[4..colon + 1], colon - 4) then
          Rooted("\\\\?\\" + value[4..colon + 1], true, true, colon + 1)
        else Rooted("\\\\" + server, true, true, 4)
      else if j3 == |value| then Whole("\\\\" + server + "\\" + value[j2..] + "\\")
      else Rooted("\\\\" + server + "\\" + value[j2..j3], true, true, j3)
  }

  function ParseRoot(value: string): (p: Parsed)
    requires |value| >= 2
    ensures p.Rooted? ==> p.rootEnd <= |value|
  {
    var colon := IndexFrom(value, ':', 0);
    if IsWinSep(value[0]) then
      if IsWinSep(value[1]) then ParseUnc(value) else Rooted("", false, true, 1)
    else if colon > 0 && IsDriveLetter(value[0]) && colon == 1 then
      var rooted := |value| > 2 && IsWinSep(value[2]);
      Rooted(value[..2], true, rooted, if rooted then 3 else 2)
    else if colon > 0 && IsWindowsReservedName(value, colon) then
      Rooted(value[..colon + 1], true, false, colon + 1)
    else Rooted("", false, false, 0)
  }

  /** A colon at the end of the text or in front of a separator. */
  predicate ColonEnds(text: string, k: nat)
    requires k < |text|
  {
    text[k] == ':' && (k == |text| - 1 || IsWinSep(text[k + 1]))
  }

  predicate SomeColonEnds(text: string) {
    exists k | 0 <= k < |text| :: ColonEnds(text, k)
  }

  /** The ":" guard: would the tail of a device-less relative path read as a drive or a stream? */
  predicate LooksLikeDevice(value: string, tail: string) {
    || (|tail| >= 2 && IsDriveLetter(tail[0]) && tail[1] == ':')
    || SomeColonEnds(value)
  }

  function WalkTail(value: string, p: Parsed): string
    requires p.Rooted? && p.rootEnd <= |value| && value != ""
  {
    var walked := Join(Stack(Windows, value[p.rootEnd..], !p.absolute), '\\');
    var tail := if walked == "" && !p.absolute then "." else walked;
    if tail != "" && IsWinSep(value[|value| - 1]) then tail + "\\" else tail
  }

  /** Root and resolved tail put together, with ".\" in front where the result would read as something else. */
  function Assembled(value: string, p: Parsed, tail: string): string
    requires p.Rooted?
  {
    if !p.absolute && !p.hasDevice && ':' in value && LooksLikeDevice(value, tail) then ".\\" + tail
    else if IsWindowsReservedName(value, IndexFrom(value, ':', 0)) then ".\\" + p.device + tail
    else if p.absolute then p.device + "\\" + tail
    else p.device + tail
  }

  function WinNormal(value: string): string {
    if value == "" then "."
    else if |value| == 1 then if IsWinSep(value[0]) then "\\" else value
    else
      var p := ParseRoot(value);
      if p.Whole? then p.text
      else Assembled(value, p, WalkTail(value, p))
  }

  // ---------------------------------------------------------------- the source's method

  method UncRoot(value: string) returns (p: Parsed)
    requires |value| >= 2
    ensures p == ParseUnc(value)
  {
    var j, last := 2, 2;
    while j < |value| && !IsWinSep(value[j])
      invariant 2 <= j <= |value| && SkipName(value, 2) == SkipName(value, j)
    {
      j := j + 1;
    }
    if j < |value| && j != last {
      var server := value[last..j];
      last := j;
      while j < |value| && IsWinSep(value[j])
        invariant last <= j <= |value| && SkipSeps(value, last) == SkipSeps(value, j)
      {
        j := j + 1;
      }
      if j < |value| && j != last {
        last := j;
        while j < |value| && !IsWinSep(value[j])
          invariant last <= j <= |value| && SkipName(value, last) == SkipName(value, j)
        {
          j := j + 1;
        }
        if j == |value| || j != last {
          if server == "." || server == "?" {
            var device, rootEnd := "\\\\" + server, 4;
            var colonIndex := IndexFrom(value, ':', 0);
            if colonIndex >= 4 {
              var possibleDevice := value[4..colonIndex + 1];
              if IsWindowsReservedName(possibleDevice, |possibleDevice| - 1) {
                device := "\\\\?\\" + possibleDevice;
                rootEnd := 4 + |possibleDevice|;
              }
            }
            return Rooted(device, true, true, rootEnd);
          } else if j == |value| {
            return Whole("\\\\" + server + "\\" + value[last..] + "\\");
          } else {
            return Rooted("\\\\" + server + "\\" + value[last..j], true, true, j);
          }
        }
      }
    }
    return Rooted("", false, true, 0);
  }

  method FindRoot(value: string) returns (p: Parsed)
    requires |value| >= 2
    ensures p == ParseRoot(value)
  {
    var rootEnd, device, hasDevice, absolute := 0, "", false, false;
    var code := value[0];
    var colonIndex := IndexFrom(value, ':', 0);
    if IsWinSep(code) {
      absolute := true;
      if IsWinSep(value[1]) {
        p := UncRoot(value);
        return p;
      } else {
        rootEnd := 1;
      }
    } else if colonIndex > 0 {
      if IsDriveLetter(code) && colonIndex == 1 {
        device, hasDevice, rootEnd := value[..2], true, 2;
        if |value| > 2 && IsWinSep(value[2]) {
          absolute, rootEnd := true, 3;
        }
      } else if IsWindowsReservedName(value, colonIndex) {
        device, hasDevice, rootEnd := value[..colonIndex + 1], true, colonIndex + 1;
      }
    }
    return Rooted(device, hasDevice, absolute, rootEnd);
  }

  /** The guard loop over every ":" of the value. */
  method ColonGuard(value: string, tail: string) returns (hit: bool)
    ensures hit == LooksLikeDevice(value, tail)
  {
    if |tail| >= 2 && IsDriveLetter(tail[0]) && tail[1] == ':' {
      return true;
    }
    var index := IndexFrom(value, ':', 0);
    while index != -1
      invariant -1 <= index < |value|
      invariant index != -1 ==> value[index] == ':'
      invariant forall k | 0 <= k < |value| && (index == -1 || k < index) :: !ColonEnds(value, k)
      decreases if index == -1 then 0 else |value| - index
    {
      if index == |value| - 1 || IsWinSep(value[index + 1]) {
        assert ColonEnds(value, index);
        return true;
      }
      index := IndexFrom(value, ':', index + 1);
    }
    return false;
  }

  method Tail(value: string, p: Parsed) returns (tail: string)
    requires p.Rooted? && p.rootEnd <= |value| && value != ""
    ensures tail == WalkTail(value, p)
  {
    tail := "";
    if p.rootEnd < |value| {
      tail := NormalizeSegments(value[p.rootEnd..], !p.absolute, Windows);
    } else {
      assert value[p.rootEnd..] == "";
      EmptyStack(!p.absolute);
    }
    if |tail| == 0 && !p.absolute {
      tail := ".";
    }
    if |tail| > 0 && IsWinSep(value[|value| - 1]) {
      tail := tail + "\\";
    }
  }

  /** The guards, and the root in front of the tail; without a device the device text is empty. */
  method Assemble(value: string, p: Parsed, tail: string) returns (r: string)
    requires p.Rooted? && (p.hasDevice || p.device == "")
    ensures r == Assembled(value, p, tail)
  {
    if !p.absolute && !p.hasDevice && ':' in value {
      var hit := ColonGuard(value, tail);
      if hit {
        return ".\\" + tail;
      }
    }
    assert !(!p.absolute && !p.hasDevice && ':' in value && LooksLikeDevice(value, tail));
    if IsWindowsReservedName(value, IndexFrom(value, ':', 0)) {
      return ".\\" + p.device + tail;
    }
    if !p.hasDevice {
      if p.absolute {
        return "\\" + tail;
      }
      return tail;
    }
    if p.absolute {
      return p.device + "\\" + tail;
    }
    return p.device + tail;
  }

  method NormalizeWindows(value: string) returns (r: string)
    ensures r == WinNormal(value)
  {
    if |value| == 0 {
      return ".";
    }
    if |value| == 1 {
      if IsWinSep(value[0]) {
        return "\\";
      }
      return value;
    }
    var p := FindRoot(value);
    if p.Whole? {
      return p.text;
    }
    var tail := Tail(value, p);
    r := Assemble(value, p, tail);
  }

  lemma EmptyStack(keepAbove: bool)
    ensures Stack(Windows, "", keepAbove) == []
  {
    assert SplitFrom(Windows, "", "") == [""];
    ResolveSkipsEmpty([], keepAbove);
  }

  // ---------------------------------------------------------------- absolute values

  /** configdir.go's isAbsWindows: the values the resolver accepts from the environment. */
  predicate IsAbsWindows(value: string) {
    && value != ""
    && (IsWinSep(value[0])
        || (|value| > 2 && IsDriveLetter(value[0]) && value[1] == ':' && IsWinSep(value[2])))
  }

  /** A complete \\server\share prefix: both names are there, with separators of either kind. */
  predicate HasShare(value: string) {
    && |value| >= 2 && IsWinSep(value[0]) && IsWinSep(value[1])
    && var j1 := SkipName(value, 2); 2 < j1 && SkipSeps(value, j1) < |value|
  }

  function Server(value: string): string
    requires HasShare(value)
  {
    value[2..SkipName(value, 2)]
  }

  function Share(value: string): string
    requires HasShare(value)
  {
    var j2 := SkipSeps(value, SkipName(value, 2));
    value[j2..SkipName(value, j2)]
  }

  predicate DeviceNamespace(value: string) {
    HasShare(value) && Server(value) in {".", "?"}
  }

  /** The root an absolute value keeps: the share, the drive, or the separator alone. */
  function Root(value: string): string
    requires IsAbsWindows(value)
  {
    if HasShare(value) then "\\\\" + Server(value) + "\\" + Share(value) + "\\"
    else if IsWinSep(value[0]) then "\\"
    else value[..2] + "\\"
  }

  /** The segments below the root. */
  function Below(value: string): seq<string>
    requires IsAbsWindows(value)
  {
    if HasShare(value) then
      Stack(Windows, value[SkipName(value, SkipSeps(value, SkipName(value, 2)))..], false)
    else if IsWinSep(value[0]) then Stack(Windows, value, false)
    else Stack(Windows, value[3..], false)
  }

  function RenderBelow(root: string, stack: seq<string>, trailing: bool): string {
    root + Join(stack, '\\') + (if trailing && stack != [] then "\\" else "")
  }

  lemma NoDeviceName(name: string)
    requires |name| < 3 || IsWinSep(name[0]) || name[0] == '.'
    ensures !IsDeviceName(name)
  {
  }

  lemma NotReserved(value: string)
    requires IsAbsWindows(value) && |value| >= 2
    ensures !IsWindowsReservedName(value, IndexFrom(value, ':', 0))
  {
    var colon := IndexFrom(value, ':', 0);
    var at := if colon < 0 then colon + |value| else colon;
    assert IsWinSep(value[0]) ==> at > 0 && ToUpper(value[..at])[0] == value[0];
    assert !IsWinSep(value[0]) ==> at == 1;
    NoDeviceName(ToUpper(value[..at]));
  }

  /** What the parser finds on an absolute value that is not just a share. */
  lemma AbsoluteRoot(value: string)
    requires IsAbsWindows(value) && !DeviceNamespace(value) && |value| >= 2
    ensures var p := ParseRoot(value);
            if p.Whole? then
              p.text == Root(value) && Below(value) == [] && HasShare(value)
            else
              p.absolute && Root(value) == p.device + "\\" && Below(value) == Stack(Windows, value[p.rootEnd..], false)
  {
    if HasShare(value) {
      var j2 := SkipSeps(value, SkipName(value, 2));
      var j3 := SkipName(value, j2);
      if j3 == |value| {
        assert value[j2..] == Share(value) && value[j3..] == "";
        EmptyStack(false);
      }
    } else if IsWinSep(value[0]) {
      assert value[0..] == value;
    }
  }

  /** Normalising an absolute value keeps its root and resolves only what is below it. */
  lemma AbsoluteForm(value: string)
    requires IsAbsWindows(value) && !DeviceNamespace(value)
    ensures WinNormal(value) == RenderBelow(Root(value), Below(value), IsWinSep(value[|value| - 1]))
  {
    if |value| == 1 {
      EmptyStack(false);
    } else {
      AbsoluteRoot(value);
      var p := ParseRoot(value);
      AbsoluteNormal(value, p);
      if p.Rooted? {
        AbsoluteTail(value, p);
      }
    }
  }

  lemma AbsoluteNormal(value: string, p: Parsed)
    requires IsAbsWindows(value) && |value| >= 2 && p == ParseRoot(value) && (p.Rooted? ==> p.absolute)
    ensures WinNormal(value) == if p.Whole? then p.text else p.device + "\\" + WalkTail(value, p)
  {
    NotReserved(value);
  }

  lemma AbsoluteTail(value: string, p: Parsed)
    requires value != "" && p.Rooted? && p.rootEnd <= |value| && p.absolute
    ensures var stack := Stack(Windows, value[p.rootEnd..], false);
            WalkTail(value, p) == Join(stack, '\\') + (if IsWinSep(value[|value| - 1]) && stack != [] then "\\" else "")
  {
    StackClean(Windows, value[p.rootEnd..], false);
    JoinNonEmpty(Windows, Stack(Windows, value[p.rootEnd..], false), false);
  }

  // ---------------------------------------------------------------- reading the result back

  lemma BelowClean(value: string)
    requires IsAbsWindows(value)
    ensures Clean(Windows, Below(value), false)
  {
    if HasShare(value) {
      StackClean(Windows, value[SkipName(value, SkipSeps(value, SkipName(value, 2)))..], false);
    } else if IsWinSep(value[0]) {
      StackClean(Windows, value, false);
    } else {
      StackClean(Windows, value[3..], false);
    }
  }

  /** A leading separator and a trailing one do not change the stack of a rendered tail. */
  lemma ReadTail(stack: seq<string>, trailing: bool)
    requires Clean(Windows, stack, false)
    ensures var body := Join(stack, '\\') + (if trailing && stack != [] then "\\" else "");
            && Stack(Windows, body, false) == stack
            && Stack(Windows, "\\" + body, false) == stack
            && (body != "" <==> stack != [])
            && (body != "" ==> !IsWinSep(body[0]) && IsWinSep(body[|body| - 1]) == trailing)
  {
    var joined := Join(stack, '\\');
    var body := joined + (if trailing && stack != [] then "\\" else "");
    StackOfJoin(Windows, stack, false);
    if stack != [] {
      JoinNonEmpty(Windows, stack, false);
      FirstChar(stack);
      assert joined[|joined| - |Last(stack)|..] == Last(stack);
      assert joined[|joined| - 1] == Last(stack)[|Last(stack)| - 1];
      if trailing {
        assert body == joined + ['\\'] + "";
        StackConcat(Windows, joined, '\\', "", false);
        assert SplitFrom(Windows, "", "") == [""];
        ResolveSkipsEmpty(stack, false);
      } else {
        assert body == joined;
      }
    } else {
      assert body == "" && joined == "";
    }
    assert ("\\" + body)[1..] == body;
  }

  lemma {:induction false} FirstChar(stack: seq<string>)
    requires Clean(Windows, stack, false) && stack != []
    ensures var text := Join(stack, '\\'); text != "" && text[0] == stack[0][0]
    decreases |stack|
  {
    if |stack| > 1 {
      FirstChar(Front(stack));
    }
  }

  /** A share root in front of any rendered tail is parsed as the same share. */
  lemma ReadShare(server: string, share: string, body: string)
    requires server != "" && share != "" && SepFree(Windows, server) && SepFree(Windows, share)
    ensures var text := "\\\\" + server + "\\" + share + "\\" + body;
            && HasShare(text) && Server(text) == server && Share(text) == share
            && Below(text) == Stack(Windows, "\\" + body, false)
  {
    var text := "\\\\" + server + "\\" + share + "\\" + body;
    var j1 := 2 + |server|;
    var j3 := j1 + 1 + |share|;
    assert text[2..j1] == server && text[j1] == '\\';
    assert forall i | 2 <= i < j1 :: text[i] == server[i - 2];
    assert text[j1 + 1..j3] == share && text[j3] == '\\';
    assert forall i | j1 + 1 <= i < j3 :: text[i] == share[i - j1 - 1];
    assert SkipSeps(text, j1) == j1 + 1;
    assert text[j3..] == "\\" + body;
  }

  /** A rendered root and tail read back as that root and that tail. */
  lemma ReadRendered(value: string, text: string)
    requires IsAbsWindows(value) && !DeviceNamespace(value)
    requires text == RenderBelow(Root(value), Below(value), IsWinSep(value[|value| - 1]))
    ensures IsAbsWindows(text) && !DeviceNamespace(text)
    ensures Root(text) == Root(value) && Below(text) == Below(value)
    ensures Below(value) != [] ==> IsWinSep(text[|text| - 1]) == IsWinSep(value[|value| - 1])
  {
    var trailing := IsWinSep(value[|value| - 1]);
    var body := Join(Below(value), '\\') + (if trailing && Below(value) != [] then "\\" else "");
    BelowClean(value);
    ReadTail(Below(value), trailing);
    RenderedParts(value, body);
    assert text == Root(value) + body;
    LastOfBoth(Root(value), body);
  }

  lemma LastOfBoth(root: string, body: string)
    ensures var text := root + body; body != "" ==> text[|text| - 1] == body[|body| - 1]
  {
  }

  lemma RenderedParts(value: string, body: string)
    requires IsAbsWindows(value) && !DeviceNamespace(value)
    requires body == "" || !IsWinSep(body[0])
    requires Stack(Windows, body, false) == Stack(Windows, "\\" + body, false) == Below(value)
    ensures var text := Root(value) + body;
            IsAbsWindows(text) && !DeviceNamespace(text) && Root(text) == Root(value) && Below(text) == Below(value)
  {
    if HasShare(value) {
      ReadShare(Server(value), Share(value), body);
    }
  }

  /**
   Outside the device namespaces, every value the resolver accepts as absolute normalises to a fixed
   point.
   */
  lemma AbsoluteFixedPoint(value: string)
    requires IsAbsWindows(value) && !DeviceNamespace(value)
    ensures WinNormal(WinNormal(value)) == WinNormal(value)
  {
    AbsoluteForm(value);
    ReadRendered(value, WinNormal(value));
    AbsoluteForm(WinNormal(value));
  }

  /**
   A share is never lost: whatever follows it, the result is the canonical share prefix and then
   segments none of which is "", "." or "..", and normalising again changes nothing.
   */
  lemma ShareKept(value: string)
    requires HasShare(value) && !DeviceNamespace(value)
    ensures WinNormal(WinNormal(value)) == WinNormal(value)
    ensures WinNormal(value) == RenderBelow("\\\\" + Server(value) + "\\" + Share(value) + "\\",
                                            Below(value), IsWinSep(value[|value| - 1]))
    ensures forall i | 0 <= i < |Below(value)| ::
              Below(value)[i] !in {"", ".", ".."} && SepFree(Windows, Below(value)[i])
  {
    AbsoluteFixedPoint(value);
    AbsoluteForm(value);
    BelowClean(value);
  }

  // ---------------------------------------------------------------- single segments

  /** One segment of two characters or more. */
  predicate Name(name: string) {
    |name| >= 2 && SepFree(Windows, name)
  }

  predicate EndsInColon(name: string) {
    name != "" && name[|name| - 1] == ':'
  }

  predicate DriveLike(name: string) {
    |name| >= 2 && IsDriveLetter(name[0]) && name[1] == ':'
  }

  /** What the tail of a device comes out as. */
  function RestNormal(rest: string): string {
    if rest == "" || rest == "." then "." else rest
  }

  lemma RestTail(value: string, p: Parsed, rest: string)
    requires p.Rooted? && p.rootEnd <= |value| && !p.absolute
    requires value != "" && rest == value[p.rootEnd..] && SepFree(Windows, rest) && !IsWinSep(value[|value| - 1])
    ensures WalkTail(value, p) == RestNormal(rest)
  {
    SplitPlain(Windows, "", rest);
    assert "" + rest == rest;
    assert Resolve([], [rest], true) == Resolve(Step([], rest, true), [rest][1..], true);
    assert [] + [rest] == [rest];
  }

  lemma DottedTail(name: string)
    requires Name(name)
    ensures WalkTail(".\\" + name, Rooted("", false, false, 0)) == name
  {
    var value := ".\\" + name;
    assert value[0..] == value && value == "." + ['\\'] + name;
    assert value[|value| - 1] == name[|name| - 1];
    StackConcat(Windows, ".", '\\', name, true);
    SplitPlain(Windows, "", ".");
    SplitPlain(Windows, "", name);
    assert "" + "." == "." && "" + name == name;
    assert Resolve([], ["."], true) == Resolve(Step([], ".", true), ["."][1..], true);
    assert Resolve([], [name], true) == Resolve(Step([], name, true), [name][1..], true);
    assert [] + [name] == [name];
  }

  lemma DottedNotReserved(value: string, at: int)
    requires |value| >= 2 && value[0] == '.' && (at == -1 || at > 0)
    ensures !IsWindowsReservedName(value, at)
  {
    var n := if at < 0 then at + |value| else at;
    if n <= |value| {
      NoDeviceName(ToUpper(value[..n]));
    }
  }

  /** A name behind ".\" loses it, unless it would read as a drive or a stream without. */
  lemma DottedNormal(name: string)
    requires Name(name)
    ensures WinNormal(".\\" + name) == if DriveLike(name) || EndsInColon(name) then ".\\" + name else name
  {
    var value := ".\\" + name;
    DottedTail(name);
    DottedNotReserved(value, IndexFrom(value, ':', 0));
    assert ParseRoot(value) == Rooted("", false, false, 0);
    DottedLooks(name, value);
  }

  lemma DottedLooks(name: string, value: string)
    requires Name(name) && value == ".\\" + name
    ensures ':' in value && LooksLikeDevice(value, name) <==> DriveLike(name) || EndsInColon(name)
  {
    assert forall i | 2 <= i < |value| :: value[i] == name[i - 2];
    assert EndsInColon(name) ==> ColonEnds(value, |value| - 1);
    assert DriveLike(name) ==> value[3] == ':';
  }

  lemma PlainRoot(name: string)
    requires Name(name) && !DriveLike(name)
    requires ':' in name ==> !IsWindowsReservedName(name, IndexFrom(name, ':', 0))
    ensures ParseRoot(name) == Rooted("", false, false, 0)
  {
  }

  /** A name without a device in front of a colon. */
  lemma PlainNormal(name: string)
    requires Name(name) && !DriveLike(name)
    requires ':' in name ==> !IsWindowsReservedName(name, IndexFrom(name, ':', 0))
    ensures WinNormal(name)
         == if EndsInColon(name) || IsWindowsReservedName(name, IndexFrom(name, ':', 0)) then ".\\" + name else name
  {
    PlainRoot(name);
    assert name[0..] == name;
    RestTail(name, Rooted("", false, false, 0), name);
    PlainLooks(name);
  }

  lemma PlainLooks(name: string)
    requires Name(name) && !DriveLike(name)
    ensures ':' in name && LooksLikeDevice(name, name) <==> EndsInColon(name)
  {
    assert EndsInColon(name) ==> ColonEnds(name, |name| - 1);
  }

  lemma DeviceRoot(name: string, colon: nat)
    requires Name(name) && colon == IndexFrom(name, ':', 0) < |name|
    requires DriveLike(name) || IsWindowsReservedName(name, colon)
    ensures ParseRoot(name) == Rooted(name[..colon + 1], true, false, colon + 1)
    ensures IsWindowsReservedName(name, colon) <==> !DriveLike(name)
  {
    NoDeviceName(ToUpper(name[..0]));
    NoDeviceName(ToUpper(name[..1]));
  }

  /** A device name, or a drive, in front of the first colon. */
  lemma DeviceNormal(name: string, colon: nat)
    requires Name(name) && colon == IndexFrom(name, ':', 0) < |name|
    requires DriveLike(name) || IsWindowsReservedName(name, colon)
    ensures WinNormal(name)
         == (if DriveLike(name) then "" else ".\\") + name[..colon + 1] + RestNormal(name[colon + 1..])
  {
    DeviceRoot(name, colon);
    RestTail(name, ParseRoot(name), name[colon + 1..]);
  }

  /** A device and the normalised rest behind it are read as that device and that rest. */
  lemma DeviceNext(name: string, colon: nat, tail: string, next: string)
    requires Name(name) && colon == IndexFrom(name, ':', 0) < |name|
    requires tail == RestNormal(name[colon + 1..]) && next == name[..colon + 1] + tail
    ensures Name(next) && IndexFrom(next, ':', 0) == colon && next[..colon + 1] == name[..colon + 1]
    ensures next[colon + 1..] == tail && RestNormal(tail) == tail
  {
    assert forall i | 0 <= i <= colon :: next[i] == name[i];
  }

  lemma NextShape(name: string, colon: nat, next: string)
    requires Name(name) && 1 < colon == IndexFrom(name, ':', 0) < |name|
    requires next == name[..colon + 1] + RestNormal(name[colon + 1..])
    ensures Name(next) && !DriveLike(next)
    ensures EndsInColon(next) <==> EndsInColon(name) && colon < |name| - 1
  {
    var rest := name[colon + 1..];
    assert next[1] == name[1];
    assert next[|next| - 1] == RestNormal(rest)[|RestNormal(rest)| - 1];
    assert rest != "" ==> rest[|rest| - 1] == name[|name| - 1];
  }

  lemma DottedTwice(next: string, normal: string, twice: string)
    requires Name(next) && !DriveLike(next) && normal == ".\\" + next && twice == WinNormal(normal)
    ensures twice == normal <==> EndsInColon(next)
  {
    DottedNormal(next);
  }

  lemma Regrouped(a: string, b: string, c: string)
    ensures a + b + c == a + (b + c)
  {
  }

  /** What a device name and its normalised rest come out as the second time. */
  lemma DeviceTwice(name: string, colon: nat, normal: string, twice: string)
    requires Name(name) && 1 < colon == IndexFrom(name, ':', 0) < |name|
    requires normal == ".\\" + name[..colon + 1] + RestNormal(name[colon + 1..]) && twice == WinNormal(normal)
    ensures twice == normal <==> EndsInColon(name) && colon < |name| - 1
  {
    var next := name[..colon + 1] + RestNormal(name[colon + 1..]);
    Regrouped(".\\", name[..colon + 1], RestNormal(name[colon + 1..]));
    NextShape(name, colon, next);
    DottedTwice(next, normal, twice);
  }

  lemma DriveTwice(name: string)
    requires Name(name) && DriveLike(name)
    ensures WinNormal(WinNormal(name)) == WinNormal(name)
    ensures IndexFrom(name, ':', 0) == 1 && !IsWindowsReservedName(name, 1)
  {
    assert name[0] != ':' && IndexFrom(name, ':', 0) == 1;
    NoDeviceName(ToUpper(name[..1]));
    DeviceNormal(name, 1);
    var tail := RestNormal(name[2..]);
    var next := name[..2] + tail;
    assert WinNormal(name) == next;
    DeviceNext(name, 1, tail, next);
    DeviceNormal(next, 1);
  }

  lemma PlainTwice(name: string, reserved: bool, normal: string, twice: string)
    requires Name(name) && !DriveLike(name) && (':' in name ==> !reserved)
    requires normal == if EndsInColon(name) || reserved then ".\\" + name else name
    requires normal == WinNormal(name) && twice == WinNormal(normal)
    ensures twice == normal <==> !reserved
  {
    if normal != name {
      DottedNormal(name);
    }
  }

  lemma SegmentCases(name: string, colon: int, normal: string, twice: string)
    requires Name(name) && colon == IndexFrom(name, ':', 0)
    requires normal == WinNormal(name) && twice == WinNormal(normal)
    ensures twice == normal
       <==> !IsWindowsReservedName(name, colon) || (EndsInColon(name) && colon < |name| - 1)
  {
    if DriveLike(name) {
      DriveTwice(name);
    } else if colon != -1 && IsWindowsReservedName(name, colon) {
      DeviceNormal(name, colon);
      assert |ToUpper(name[..colon])| == colon;
      DeviceTwice(name, colon, normal, twice);
    } else {
      PlainNormal(name);
      PlainTwice(name, IsWindowsReservedName(name, colon), normal, twice);
    }
  }

  lemma ShortSegment(name: string)
    requires |name| < 2
    ensures WinNormal(WinNormal(name)) == WinNormal(name)
    ensures !IsWindowsReservedName(name, IndexFrom(name, ':', 0))
  {
    NoDeviceName(ToUpper(name[..0]));
  }

  /**
   Normalising a single segment is idempotent, exactly: unless a device name stands in front of the first
   colon, or of the last character if there is none. A further colon at the end keeps ".\" in front.
   */
  lemma SegmentIdempotent(name: string)
    requires SepFree(Windows, name)
    ensures var colon := IndexFrom(name, ':', 0);
            WinNormal(WinNormal(name)) == WinNormal(name)
            <==> !IsWindowsReservedName(name, colon) || (EndsInColon(name) && colon < |name| - 1)
  {
    if |name| < 2 {
      ShortSegment(name);
    } else {
      SegmentCases(name, IndexFrom(name, ':', 0), WinNormal(name), WinNormal(WinNormal(name)));
    }
  }

  /** "CONx" and ".\CONx" are each other's normal form, and so are "CON:x" and ".\CON:x". */
  lemma DeviceNamesAlternate(name: string)
    requires name == "CONx" || name == "CON:x"
    ensures WinNormal(name) == ".\\" + name && WinNormal(".\\" + name) == name
  {
    assert ToUpper(name[..3]) == "CON";
    assert !DriveLike(name) && !EndsInColon(name);
    DottedNormal(name);
    if name == "CONx" {
      PlainNormal(name);
    } else {
      ColonAtThree(name);
    }
  }

  lemma ColonAtThree(name: string)
    requires name == "CON:x" && IsDeviceName(ToUpper(name[..3])) && !DriveLike(name)
    ensures WinNormal(name) == ".\\" + name
  {
    assert name[3] == ':' && IndexFrom(name, ':', 0) == 3;
    DeviceNormal(name, 3);
    assert name[4..] == "x" && name[..4] + name[4..] == name;
  }

  lemma DotStacks(text: string)
    requires text == "\\\\.\\"
    ensures Stack(Windows, "..", false) == [] && Stack(Windows, text, false) == []
  {
    SplitPlain(Windows, "", "..");
    assert "" + ".." == "..";
    assert Resolve([], [".."], false) == Resolve(Step([], "..", false), [".."][1..], false);
    SplitPlain(Windows, "", ".");
    assert "" + "." == ".";
    assert Resolve([], ["."], false) == Resolve(Step([], ".", false), ["."][1..], false);
    EmptyStack(false);
    assert "" + ['\\'] + "" == "\\" && "\\" + ['\\'] + "." == "\\\\." && "\\\\." + ['\\'] + "" == text;
    assert SplitFrom(Windows, "", "") == [""];
    ResolveSkipsEmpty([], false);
    StackConcat(Windows, "", '\\', "", false);
    StackConcat(Windows, "\\", '\\', ".", false);
    StackConcat(Windows, "\\\\.", '\\', "", false);
  }

  lemma NamespaceParent(once: string)
    requires once == "\\\\.\\.." && Stack(Windows, "..", false) == []
    ensures WinNormal(once) == "\\\\.\\"
  {
    assert once[4..] == "..";
    assert SkipName(once, 2) == 3 && SkipSeps(once, 3) == 4 && once[2..3] == ".";
    assert ParseRoot(once) == Rooted("\\\\.", true, true, 4);
    NotReserved(once);
  }

  lemma NamespaceAlone(twice: string)
    requires twice == "\\\\.\\" && Stack(Windows, twice, false) == []
    ensures WinNormal(twice) == "\\"
  {
    assert SkipName(twice, 2) == 3 && SkipSeps(twice, 3) == 4;
    assert ParseRoot(twice) == Rooted("", false, true, 0);
    assert twice[0..] == twice;
    NotReserved(twice);
  }

  /** In a device namespace the root itself can go: "\\.\.." becomes "\\.\", and that becomes "\". */
  lemma NamespaceShrinks()
    ensures WinNormal("\\\\.\\..") == "\\\\.\\" && WinNormal("\\\\.\\") == "\\"
  {
    DotStacks("\\\\.\\");
    NamespaceParent("\\\\.\\..");
    NamespaceAlone("\\\\.\\");
  }
}
