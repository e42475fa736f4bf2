/**
 normalizeWindows of bridge/internal/configdir/lexical.go inside the device namespaces, the values that WindowsPaths
 leaves to the root parser: which root they keep, and what is resolved below it.
 */
module DeviceNamespaces {
  import opened Segments
  import opened WindowsPaths

  lemma NamespacePrefix(value: string)
    requires DeviceNamespace(value)
    ensures |value| > 4 && SkipName(value, 2) == 3 && Server(value) == [value[2]] && value[2] in {'.', '?'}
    ensures IsWinSep(value[0]) && IsWinSep(value[1]) && IsWinSep(value[3])
  {
    var server := Server(value);
    assert |server| == 1 && server[0] == value[2];
  }

  lemma NamespaceRoot(value: string)
    requires DeviceNamespace(value)
    ensures |value| > 4 && IsAbsWindows(value)
    ensures var colon := IndexFrom(value, ':', 0);
            ParseRoot(value)
            == if colon >= 4 && IsDeviceName(ToUpper(value[4..colon])) then
                 Rooted("\\\\?\\" + value[4..colon + 1], true, true, colon + 1)
               else Rooted("\\\\" + Server(value), true, true, 4)
  {
    NamespacePrefix(value);
    var colon := IndexFrom(value, ':', 0);
    if colon >= 4 {
      assert value[4..colon + 1][..colon - 4] == value[4..colon];
    }
  }

  lemma Rendered(value: string, p: Parsed)
    requires IsAbsWindows(value) && |value| >= 2 && p == ParseRoot(value) && p.Rooted? && p.absolute
    ensures WinNormal(value)
         == RenderBelow(p.device + "\\", Stack(Windows, value[p.rootEnd..], false), IsWinSep(value[|value| - 1]))
  {
    AbsoluteNormal(value, p);
    AbsoluteTail(value, p);
  }

  /**
   A device in a namespace keeps its name and is moved to the verbatim one; what follows is resolved below it, and
   never above.
   */
  lemma DeviceKept(value: string, name: string, rest: string)
    requires DeviceNamespace(value) && |value| > 4 && value[4..] == name + ":" + rest
    requires IsDeviceName(ToUpper(name)) && ':' !in name
    ensures WinNormal(value)
         == RenderBelow("\\\\?\\" + name + ":\\", Stack(Windows, rest, false), IsWinSep(value[|value| - 1]))
  {
    var colon := 4 + |name|;
    FirstColon(value, name, rest);
    NamespaceRoot(value);
    assert "\\\\?\\" + (name + ":") + "\\" == "\\\\?\\" + name + ":\\";
    Rendered(value, ParseRoot(value));
  }

  lemma FirstColon(value: string, name: string, rest: string)
    requires DeviceNamespace(value) && |value| > 4 && value[4..] == name + ":" + rest && ':' !in name
    ensures var colon := 4 + |name|;
            IndexFrom(value, ':', 0) == colon && value[4..colon] == name && value[4..colon + 1] == name + ":"
            && value[colon + 1..] == rest
  {
    NamespacePrefix(value);
    var tail := name + ":" + rest;
    assert forall i | 4 <= i < |value| :: value[i] == value[4..][i - 4];
    assert tail[|name|] == ':' && forall i | 0 <= i < |name| :: tail[i] == name[i];
    assert value[4..4 + |name|] == tail[..|name|] && value[4..5 + |name|] == tail[..|name| + 1];
    assert value[5 + |name|..] == tail[|name| + 1..];
  }

  /** Any other value of a namespace keeps the prefix, and everything behind it is resolved. */
  lemma PrefixKept(value: string)
    requires DeviceNamespace(value) && |value| > 4
    requires forall name: string, rest: string ::
               value[4..] == name + ":" + rest && ':' !in name ==> !IsDeviceName(ToUpper(name))
    ensures WinNormal(value)
         == RenderBelow("\\\\" + Server(value) + "\\", Stack(Windows, value[4..], false), IsWinSep(value[|value| - 1]))
  {
    var colon := IndexFrom(value, ':', 0);
    NamespaceRoot(value);
    if colon >= 4 {
      var name, rest := value[4..colon], value[colon + 1..];
      assert value[4..] == name + [value[colon]] + rest;
      assert value[4..] == name + ":" + rest && ':' !in name;
      assert !IsDeviceName(ToUpper(value[4..colon]));
    }
    assert ParseRoot(value) == Rooted("\\\\" + Server(value), true, true, 4);
    Rendered(value, ParseRoot(value));
  }
}
