/**
 The two halves of bridge/internal/configdir/lexical.go against each other: off the roots, normalizeWindows does what
 normalizePosix does, with either separator read and the backslash written.
 */
module FlavoursAgree {
  import opened ConfigDir
  import opened Segments
  import PosixPaths
  import opened WindowsPaths
  import Utf8Scalars

  function Slashed(s: string): string {
    seq(|s|, i requires 0 <= i < |s| => if s[i] == '\\' then '/' else s[i])
  }

  lemma {:induction false} SplitAgrees(seg: string, s: string)
    ensures SplitFrom(Windows, seg, s) == SplitFrom(Posix, seg, Slashed(s))
    decreases |s|
  {
    if s != "" {
      assert Slashed(s)[1..] == Slashed(s[1..]);
      SplitAgrees("", s[1..]);
      SplitAgrees(seg + [s[0]], s[1..]);
    }
  }

  lemma StackAgrees(s: string, k: bool)
    ensures Stack(Windows, s, k) == Stack(Posix, Slashed(s), k)
  {
    SplitAgrees("", s);
  }

  lemma BackslashesJoin(a: string, b: string)
    ensures Backslashes(a + b) == Backslashes(a) + Backslashes(b)
  {
  }

  lemma {:induction false} JoinAgrees(stack: seq<string>)
    requires forall i | 0 <= i < |stack| :: '/' !in stack[i]
    ensures Join(stack, '\\') == Backslashes(Join(stack, '/'))
    decreases |stack|
  {
    if |stack| == 1 {
      assert Backslashes(stack[0]) == stack[0];
    } else if |stack| > 1 {
      JoinAgrees(Front(stack));
      BackslashesJoin(Join(Front(stack), '/'), ['/']);
      BackslashesJoin(Join(Front(stack), '/') + ['/'], Last(stack));
      assert Backslashes(['/']) == ['\\'] && Backslashes(Last(stack)) == Last(stack);
    }
  }

  /** A relative text in the other system's spelling. */
  function AsPosix(s: string): string {
    Backslashes(PosixPaths.NormalForm(Slashed(s)))
  }

  /** What is left of a relative value behind its device comes out as posix would have it. */
  lemma TailAgrees(value: string, p: Parsed, rest: string)
    requires p.Rooted? && !p.absolute && p.rootEnd <= |value| && rest == value[p.rootEnd..]
    requires rest != "" && !IsWinSep(rest[0])
    ensures WalkTail(value, p) == AsPosix(rest)
  {
    var stack := Stack(Windows, rest, true);
    StackAgrees(rest, true);
    StackClean(Windows, rest, true);
    JoinAgrees(stack);
    JoinNonEmpty(Windows, stack, true);
    assert value[|value| - 1] == rest[|rest| - 1];
    var posix := Slashed(rest);
    assert !PosixPaths.IsAbsolute(posix) && PosixPaths.Trailing(posix) == IsWinSep(rest[|rest| - 1]);
    BackslashesJoin(Join(stack, '/'), "/");
    assert Backslashes("/") == "\\" && Backslashes(".") == "." && Backslashes("./") == ".\\" && "." + "\\" == ".\\";
  }

  predicate SomeEndsInColon(segs: seq<string>) {
    exists i | 0 <= i < |segs| :: EndsInColon(segs[i])
  }

  lemma WholeSegment(seg: string)
    requires SepFree(Windows, seg)
    ensures SomeColonEnds(seg) <==> EndsInColon(seg)
  {
    if EndsInColon(seg) {
      assert ColonEnds(seg, |seg| - 1);
    }
  }

  lemma ColonBefore(seg: string, rest: string, text: string, c: char)
    requires SepFree(Windows, seg) && IsWinSep(c) && text == seg + [c] + rest
    ensures SomeColonEnds(text) <==> EndsInColon(seg) || SomeColonEnds(rest)
  {
    var n := |seg| + 1;
    assert forall k | 0 <= k < |seg| :: text[k] == seg[k];
    assert text[|seg|] == c && forall k | n <= k < |text| :: text[k] == rest[k - n];
    if EndsInColon(seg) {
      assert ColonEnds(text, |seg| - 1);
    }
    if k :| 0 <= k < |rest| && ColonEnds(rest, k) {
      assert ColonEnds(text, k + n);
    }
    if k :| 0 <= k < |text| && ColonEnds(text, k) {
      assert k >= n ==> ColonEnds(rest, k - n);
    }
  }

  lemma SomeFirst(seg: string, segs: seq<string>)
    ensures SomeEndsInColon([seg] + segs) <==> EndsInColon(seg) || SomeEndsInColon(segs)
  {
    var all := [seg] + segs;
    assert all[0] == seg && forall i | 0 <= i < |segs| :: all[i + 1] == segs[i];
  }

  /** The guard of the source looks for segments that end in a colon. */
  lemma {:induction false} ColonSegments(seg: string, s: string)
    requires SepFree(Windows, seg)
    ensures SomeEndsInColon(SplitFrom(Windows, seg, s)) <==> SomeColonEnds(seg + s)
    decreases |s|
  {
    if s == "" {
      assert seg + s == seg && [seg] + [] == [seg];
      SomeFirst(seg, []);
      WholeSegment(seg);
    } else if IsWinSep(s[0]) {
      assert "" + s[1..] == s[1..];
      ColonSegments("", s[1..]);
      SomeFirst(seg, SplitFrom(Windows, "", s[1..]));
      ColonBefore(seg, s[1..], seg + s, s[0]);
    } else {
      assert (seg + [s[0]]) + s[1..] == seg + s;
      ColonSegments(seg + [s[0]], s[1..]);
    }
  }

  /**
   What would read as something else: a drive in front, a segment that ends in a colon, or a device's name and one more
   character.
   */
  predicate Guarded(value: string, tail: string)
    requires value != ""
  {
    if ':' in value then DriveLike(tail) || SomeEndsInColon(Split(Windows, value))
    else IsDeviceName(ToUpper(value[..|value| - 1]))
  }

  lemma GuardedLooks(value: string, tail: string)
    requires value != ""
    ensures Guarded(value, tail)
       <==> if ':' in value then LooksLikeDevice(value, tail) else IsWindowsReservedName(value, -1)
  {
    if ':' in value {
      ColonSegments("", value);
      assert "" + value == value;
    }
  }

  lemma GuardedAssembled(value: string, tail: string, colon: int, reserved: bool)
    requires colon == IndexFrom(value, ':', 0) && reserved == IsWindowsReservedName(value, colon)
    requires ':' in value ==> !reserved
    ensures Assembled(value, Rooted("", false, false, 0), tail)
         == (if (if ':' in value then LooksLikeDevice(value, tail) else reserved) then ".\\" else "") + tail
  {
    assert ".\\" + "" + tail == ".\\" + tail && "" + tail == tail;
  }

  /**
   A relative value without a device comes out as posix would have it, with ".\" in front exactly where it would read
   as something else.
   */
  lemma RelativeAgrees(value: string, tail: string)
    requires |value| >= 2 && !IsWinSep(value[0]) && !DriveLike(value) && tail == AsPosix(value)
    requires ':' in value ==> !IsWindowsReservedName(value, IndexFrom(value, ':', 0))
    ensures WinNormal(value) == (if Guarded(value, tail) then ".\\" else "") + tail
  {
    assert ParseRoot(value) == Rooted("", false, false, 0) && value[0..] == value;
    TailAgrees(value, Rooted("", false, false, 0), value);
    var colon := IndexFrom(value, ':', 0);
    GuardedLooks(value, tail);
    GuardedAssembled(value, tail, colon, IsWindowsReservedName(value, colon));
  }

  /** Behind a device and a colon what follows comes out as posix would have it, with ".\" in front of the device. */
  lemma DeviceRelativeAgrees(value: string, name: string, rest: string)
    requires value == name + ":" + rest && ':' !in name && IsDeviceName(ToUpper(name))
    requires rest != "" && !IsWinSep(rest[0])
    ensures WinNormal(value) == ".\\" + name + ":" + AsPosix(rest)
  {
    var n := |name|;
    assert |ToUpper(name)| == n && value[n] == ':' && forall i | 0 <= i < n :: value[i] == name[i];
    assert IndexFrom(value, ':', 0) == n && value[..n] == name;
    assert value[..n + 1] == name + ":" && value[n + 1..] == rest;
    assert !IsWinSep(value[0]) by {
      assert ToUpper(name)[0] == Upper(name[0]) && ToUpper(name)[0] in {'C', 'P', 'A', 'N', 'L'};
    }
    assert ParseRoot(value) == Rooted(name + ":", true, false, n + 1);
    TailAgrees(value, ParseRoot(value), rest);
  }

  /** On a drive without a root only what follows the drive is resolved, as posix would. */
  lemma DriveRelativeAgrees(value: string)
    requires |value| >= 3 && IsDriveLetter(value[0]) && value[1] == ':' && !IsWinSep(value[2])
    ensures WinNormal(value) == value[..2] + AsPosix(value[2..])
  {
    assert IndexFrom(value, ':', 0) == 1;
    assert ParseRoot(value) == Rooted(value[..2], true, false, 2);
    NoDeviceName(ToUpper(value[..1]));
    TailAgrees(value, ParseRoot(value), value[2..]);
  }

  // ---------------------------------------------------------------- the reserved names

  /** The numbers a port may carry: one to nine, or a superscript one, two or three. */
  predicate PortNumber(d: string) {
    || (|d| == 1 && '1' <= d[0] <= '9')
    || d == Utf8Scalars.Utf8(0xB9) || d == Utf8Scalars.Utf8(0xB2) || d == Utf8Scalars.Utf8(0xB3)
  }

  /** The reserved names are the four devices and the numbered ports of both kinds. */
  lemma DeviceNames(name: string)
    ensures IsDeviceName(name)
       <==> name in {"CON", "PRN", "AUX", "NUL"}
            || exists d: string :: PortNumber(d) && (name == "COM" + d || name == "LPT" + d)
  {
    if IsDeviceName(name) && |name| > 3 {
      var d := name[3..];
      assert name == name[..3] + d && PortNumber(d);
    }
    forall d: string | PortNumber(d) && (name == "COM" + d || name == "LPT" + d)
      ensures IsDeviceName(name)
    {
      assert name[3..] == d && name[3] == d[0] && (|d| == 2 ==> name[4] == d[1]);
    }
  }

  /** Whether a name is reserved does not depend on the case of its ASCII letters. */
  lemma CaseIgnored(a: string, b: string)
    requires |a| == |b|
    requires forall i | 0 <= i < |a| :: a[i] == b[i] || ('a' <= a[i] <= 'z' && b[i] as int == a[i] as int - 32)
    ensures IsDeviceName(ToUpper(a)) <==> IsDeviceName(ToUpper(b))
  {
    assert ToUpper(a) == ToUpper(b);
  }
}
