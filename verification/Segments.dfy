/**
 Segment resolution, the core of bridge/internal/configdir/lexical.go.

 Go strings are byte strings; here a string holds one char per byte. Nothing below depends on the
 range of a char, so every statement covers every byte string.

 The specification is the obvious stack machine: split on separators, skip empty and "." segments,
 pop on "..", push everything else. The method is the source's one-pass loop, which keeps only the
 output, the length of its last segment, the last separator index and a dot counter.
 */
module Segments {

  /** The two separator sets: posix accepts "/", Windows accepts "\" and "/" and emits "\". */
  datatype Flavour = Posix | Windows {
    predicate IsSep(c: char) {
      if Posix? then c == '/' else c == '\\' || c == '/'
    }

    function Sep(): char {
      if Posix? then '/' else '\\'
    }
  }

  predicate SepFree(f: Flavour, s: string) {
    forall i | 0 <= i < |s| :: !f.IsSep(s[i])
  }

  // ---------------------------------------------------------------- specification

  /** Splits s, with seg the part of the current segment already read. */
  function SplitFrom(f: Flavour, seg: string, s: string): (segs: seq<string>)
    ensures |segs| > 0
    decreases |s|
  {
    if s == "" then [seg]
    else if f.IsSep(s[0]) then [seg] + SplitFrom(f, "", s[1..])
    else SplitFrom(f, seg + [s[0]], s[1..])
  }

  function Split(f: Flavour, s: string): (segs: seq<string>)
    ensures |segs| > 0
  {
    SplitFrom(f, "", s)
  }

  function Last(stack: seq<string>): string
    requires stack != []
  {
    stack[|stack| - 1]
  }

  function Front(stack: seq<string>): seq<string>
    requires stack != []
  {
    stack[..|stack| - 1]
  }

  /** One segment against the stack. keepAbove decides what an escaping ".." does. */
  function Step(stack: seq<string>, seg: string, keepAbove: bool): seq<string> {
    if seg == "" || seg == "." then stack
    else if seg == ".." then
      if stack != [] && Last(stack) != ".." then Front(stack)
      else if keepAbove then stack + [".."]
      else stack
    else stack + [seg]
  }

  function Resolve(stack: seq<string>, segs: seq<string>, keepAbove: bool): seq<string>
    decreases |segs|
  {
    if segs == [] then stack else Resolve(Step(stack, segs[0], keepAbove), segs[1..], keepAbove)
  }

  function Join(stack: seq<string>, sep: char): string {
    if stack == [] then ""
    else if |stack| == 1 then stack[0]
    else Join(Front(stack), sep) + [sep] + Last(stack)
  }

  /** The stack a path's segments resolve to. */
  function Stack(f: Flavour, path: string, keepAbove: bool): seq<string> {
    Resolve([], Split(f, path), keepAbove)
  }

  // ---------------------------------------------------------------- what resolution keeps

  predicate Ordinary(f: Flavour, seg: string) {
    seg != "" && seg != "." && SepFree(f, seg)
  }

  /**
   A resolved stack: real segments only, ".." only as a leading run, and no ".." at all where an
   escaping ".." is dropped.
   */
  predicate Clean(f: Flavour, stack: seq<string>, keepAbove: bool) {
    && (forall i | 0 <= i < |stack| :: Ordinary(f, stack[i]))
    && (forall i | 0 <= i < |stack| :: stack[i] == ".." ==> keepAbove)
    && (forall i, j | 0 <= i < j < |stack| :: stack[j] == ".." ==> stack[i] == "..")
  }

  lemma StepClean(f: Flavour, stack: seq<string>, seg: string, keepAbove: bool)
    requires Clean(f, stack, keepAbove) && SepFree(f, seg)
    ensures Clean(f, Step(stack, seg, keepAbove), keepAbove)
  {
  }

  lemma {:induction false} ResolveClean(f: Flavour, stack: seq<string>, segs: seq<string>, keepAbove: bool)
    requires Clean(f, stack, keepAbove)
    requires forall i | 0 <= i < |segs| :: SepFree(f, segs[i])
    ensures Clean(f, Resolve(stack, segs, keepAbove), keepAbove)
    decreases |segs|
  {
    if segs != [] {
      StepClean(f, stack, segs[0], keepAbove);
      ResolveClean(f, Step(stack, segs[0], keepAbove), segs[1..], keepAbove);
    }
  }

  lemma {:induction false} SplitSepFree(f: Flavour, seg: string, s: string)
    requires SepFree(f, seg)
    ensures forall i | 0 <= i < |SplitFrom(f, seg, s)| :: SepFree(f, SplitFrom(f, seg, s)[i])
    decreases |s|
  {
    if s != "" {
      if f.IsSep(s[0]) {
        SplitSepFree(f, "", s[1..]);
      } else {
        SplitSepFree(f, seg + [s[0]], s[1..]);
      }
    }
  }

  lemma StackClean(f: Flavour, path: string, keepAbove: bool)
    ensures Clean(f, Stack(f, path, keepAbove), keepAbove)
  {
    SplitSepFree(f, "", path);
    ResolveClean(f, [], Split(f, path), keepAbove);
  }

  /** The stack a rooted path resolves to holds no "", "." or ".." segment. */
  lemma RootedStackPlain(f: Flavour, path: string, i: nat)
    requires i < |Stack(f, path, false)|
    ensures Stack(f, path, false)[i] !in {"", ".", ".."} && SepFree(f, Stack(f, path, false)[i])
  {
    StackClean(f, path, false);
  }

  // ---------------------------------------------------------------- splitting and joining

  lemma {:induction false} SplitConcat(f: Flavour, seg: string, a: string, c: char, b: string)
    requires f.IsSep(c)
    ensures SplitFrom(f, seg, a + [c] + b) == SplitFrom(f, seg, a) + Split(f, b)
    decreases |a|
  {
    var s := a + [c] + b;
    if a == "" {
      assert s[1..] == b;
    } else {
      assert s[1..] == a[1..] + [c] + b;
      if f.IsSep(a[0]) {
        SplitConcat(f, "", a[1..], c, b);
      } else {
        SplitConcat(f, seg + [a[0]], a[1..], c, b);
      }
    }
  }

  lemma {:induction false} SplitPlain(f: Flavour, seg: string, s: string)
    requires SepFree(f, s)
    ensures SplitFrom(f, seg, s) == [seg + s]
    decreases |s|
  {
    if s == "" {
      assert seg + s == seg;
    } else {
      SplitPlain(f, seg + [s[0]], s[1..]);
      assert seg + [s[0]] + s[1..] == seg + s;
    }
  }

  lemma {:induction false} SplitJoin(f: Flavour, stack: seq<string>, sep: char)
    requires stack != [] && f.IsSep(sep)
    requires forall i | 0 <= i < |stack| :: SepFree(f, stack[i])
    ensures Split(f, Join(stack, sep)) == stack
    decreases |stack|
  {
    SplitPlain(f, "", Last(stack));
    assert "" + Last(stack) == Last(stack);
    if |stack| > 1 {
      SplitJoin(f, Front(stack), sep);
      SplitConcat(f, "", Join(Front(stack), sep), sep, Last(stack));
    }
  }

  lemma {:induction false} ResolveConcat(stack: seq<string>, a: seq<string>, b: seq<string>, keepAbove: bool)
    ensures Resolve(stack, a + b, keepAbove) == Resolve(Resolve(stack, a, keepAbove), b, keepAbove)
    decreases |a|
  {
    if a == [] {
      assert a + b == b;
    } else {
      assert (a + b)[1..] == a[1..] + b;
      ResolveConcat(Step(stack, a[0], keepAbove), a[1..], b, keepAbove);
    }
  }

  /** Resolving what is already resolved changes nothing. */
  lemma {:induction false} ResolveResolved(f: Flavour, stack: seq<string>, segs: seq<string>, keepAbove: bool)
    requires Clean(f, stack + segs, keepAbove)
    ensures Resolve(stack, segs, keepAbove) == stack + segs
    decreases |segs|
  {
    if segs == [] {
      assert stack + segs == stack;
    } else {
      var all := stack + segs;
      assert all[|stack|] == segs[0];
      if segs[0] == ".." && stack != [] {
        assert all[|stack| - 1] == Last(stack);
      }
      assert stack + [segs[0]] + segs[1..] == all;
      ResolveResolved(f, stack + [segs[0]], segs[1..], keepAbove);
    }
  }

  lemma ResolveSkipsEmpty(stack: seq<string>, keepAbove: bool)
    ensures Resolve(stack, [""], keepAbove) == stack
  {
    assert Resolve(stack, [""], keepAbove) == Resolve(stack, [""][1..], keepAbove);
  }

  /** Re-reading a rendered stack gives the stack back. */
  lemma StackOfJoin(f: Flavour, stack: seq<string>, keepAbove: bool)
    requires Clean(f, stack, keepAbove)
    ensures Stack(f, Join(stack, f.Sep()), keepAbove) == stack
  {
    if stack == [] {
      ResolveSkipsEmpty([], keepAbove);
    } else {
      SplitJoin(f, stack, f.Sep());
      ResolveResolved(f, [], stack, keepAbove);
      assert [] + stack == stack;
    }
  }

  /** Appending after a separator continues the resolution from the stack reached so far. */
  lemma StackConcat(f: Flavour, a: string, c: char, b: string, keepAbove: bool)
    requires f.IsSep(c)
    ensures Stack(f, a + [c] + b, keepAbove) == Resolve(Stack(f, a, keepAbove), Split(f, b), keepAbove)
  {
    SplitConcat(f, "", a, c, b);
    ResolveConcat([], Split(f, a), Split(f, b), keepAbove);
  }

  /** Every separator rewritten to the one the flavour emits. */
  function Canonical(f: Flavour, s: string): string {
    seq(|s|, i requires 0 <= i < |s| => if f.IsSep(s[i]) then f.Sep() else s[i])
  }

  lemma {:induction false} JoinPrepend(seg: string, segs: seq<string>, sep: char)
    requires segs != []
    ensures Join([seg] + segs, sep) == seg + [sep] + Join(segs, sep)
    decreases |segs|
  {
    if |segs| > 1 {
      JoinPrepend(seg, Front(segs), sep);
      assert Front([seg] + segs) == [seg] + Front(segs);
    }
  }

  lemma CanonicalPrepend(f: Flavour, c: char, s: string)
    ensures Canonical(f, [c] + s) == [if f.IsSep(c) then f.Sep() else c] + Canonical(f, s)
  {
  }

  /** Splitting loses nothing: joining the segments gives the text back, separators canonical. */
  lemma {:induction false} JoinSplit(f: Flavour, seg: string, s: string)
    ensures Join(SplitFrom(f, seg, s), f.Sep()) == seg + Canonical(f, s)
    decreases |s|
  {
    if s != "" {
      CanonicalPrepend(f, s[0], s[1..]);
      assert [s[0]] + s[1..] == s;
      if f.IsSep(s[0]) {
        JoinSplit(f, "", s[1..]);
        JoinPrepend(seg, SplitFrom(f, "", s[1..]), f.Sep());
      } else {
        JoinSplit(f, seg + [s[0]], s[1..]);
      }
    }
  }

  // ---------------------------------------------------------------- rendering facts the loop relies on

  function LastIndexOf(s: string, c: char): (k: int)
    ensures -1 <= k < |s|
    ensures 0 <= k ==> s[k] == c
    ensures forall i | k < i < |s| :: s[i] != c
  {
    if s == "" then -1
    else if s[|s| - 1] == c then |s| - 1
    else LastIndexOf(s[..|s| - 1], c)
  }

  function TopLength(stack: seq<string>): nat {
    if stack == [] then 0 else |Last(stack)|
  }

  lemma {:induction false} JoinNonEmpty(f: Flavour, stack: seq<string>, keepAbove: bool)
    requires Clean(f, stack, keepAbove)
    ensures |Join(stack, f.Sep())| >= TopLength(stack)
    ensures stack != [] ==> |Join(stack, f.Sep())| > 0
    ensures |stack| > 1 ==> |Join(stack, f.Sep())| > 2
    decreases |stack|
  {
    if |stack| > 1 {
      JoinNonEmpty(f, Front(stack), keepAbove);
    }
  }

  /** What the loop recomputes after a pop: the distance from the last separator to the end. */
  lemma TopAfterTrim(f: Flavour, stack: seq<string>, keepAbove: bool)
    requires Clean(f, stack, keepAbove) && stack != []
    ensures var joined := Join(stack, f.Sep());
            |joined| - 1 - LastIndexOf(joined, f.Sep()) == TopLength(stack)
  {
    var joined := Join(stack, f.Sep());
    var last := Last(stack);
    var k := LastIndexOf(joined, f.Sep());
    var at := |joined| - |last| - 1;
    JoinNonEmpty(f, stack, keepAbove);
    assert joined[at + 1..] == last;
    assert forall i | at < i < |joined| :: joined[i] == last[i - at - 1];
    if |stack| > 1 {
      assert joined[at] == f.Sep();
    }
  }

  /** The test the loop makes on its output text is the test on the top segment. */
  lemma TopIsDotDot(f: Flavour, stack: seq<string>, keepAbove: bool)
    requires Clean(f, stack, keepAbove)
    ensures var joined := Join(stack, f.Sep());
            (|joined| >= 2 && TopLength(stack) == 2 && joined[|joined| - 1] == '.' && joined[|joined| - 2] == '.')
            <==> (stack != [] && Last(stack) == "..")
  {
    var joined := Join(stack, f.Sep());
    JoinNonEmpty(f, stack, keepAbove);
    if stack != [] {
      assert joined[|joined| - |Last(stack)|..] == Last(stack);
      if TopLength(stack) == 2 {
        assert joined[|joined| - 2..][0] == joined[|joined| - 2];
        assert joined[|joined| - 2..][1] == joined[|joined| - 1];
      }
    }
  }

  lemma PushJoin(stack: seq<string>, seg: string, sep: char)
    ensures Join(stack + [seg], sep) == if stack == [] then seg else Join(stack, sep) + [sep] + seg
  {
    assert Front(stack + [seg]) == stack;
  }

  // ---------------------------------------------------------------- the one-pass loop

  predicate AllDots(s: string) {
    forall i | 0 <= i < |s| :: s[i] == '.'
  }

  /** The counter after reading s since the last separator: its length while it is all dots, else -1. */
  function DotCount(s: string): int {
    if AllDots(s) then |s| else -1
  }

  lemma DotCountStep(s: string, c: char)
    ensures DotCount(s + [c]) == if c == '.' && DotCount(s) != -1 then DotCount(s) + 1 else -1
  {
    if AllDots(s + [c]) {
      assert (s + [c])[|s|] == c;
      assert forall i | 0 <= i < |s| :: s[i] == (s + [c])[i];
    }
  }

  lemma DotCountNames(s: string)
    ensures (DotCount(s) == 0) == (s == "")
    ensures (DotCount(s) == 1) == (s == ".")
    ensures (DotCount(s) == 2) == (s == "..")
  {
  }

  /** The output text and the length of its last segment, against the stack they stand for. */
  ghost predicate Renders(f: Flavour, stack: seq<string>, keepAbove: bool, res: string, lastSegmentLength: int) {
    && Clean(f, stack, keepAbove)
    && res == Join(stack, f.Sep())
    && lastSegmentLength == TopLength(stack)
  }

  /** Dropping the last segment from the output text. */
  lemma PopRenders(f: Flavour, stack: seq<string>, keepAbove: bool, res: string, lastSegmentLength: int)
    requires Renders(f, stack, keepAbove, res, lastSegmentLength) && stack != []
    ensures |stack| == 1 ==> |res| == lastSegmentLength
    ensures |stack| > 1 ==>
              var idx := |res| - lastSegmentLength - 1;
              && idx > 0 && |res| > 2
              && Renders(f, Front(stack), keepAbove, res[..idx], idx - 1 - LastIndexOf(res[..idx], f.Sep()))
  {
    if |stack| > 1 {
      var idx := |res| - lastSegmentLength - 1;
      assert res[..idx] == Join(Front(stack), f.Sep());
      JoinNonEmpty(f, Front(stack), keepAbove);
      TopAfterTrim(f, Front(stack), keepAbove);
    }
  }

  lemma PushRenders(f: Flavour, stack: seq<string>, keepAbove: bool, res: string, lastSegmentLength: int, seg: string)
    requires Renders(f, stack, keepAbove, res, lastSegmentLength)
    requires Clean(f, stack + [seg], keepAbove)
    ensures Renders(f, stack + [seg], keepAbove, (if |res| > 0 then res + [f.Sep()] else res) + seg, |seg|)
  {
    JoinNonEmpty(f, stack, keepAbove);
    PushJoin(stack, seg, f.Sep());
  }

  /**
   The body of the loop at a separator: the segment seg has just ended, with its dot count. The
   ghost stack is what res renders; the result renders the stack after one step.
   */
  method CloseSegment(res: string, lastSegmentLength: nat, dots: int, seg: string, allowAboveRoot: bool, f: Flavour,
                      ghost stack: seq<string>)
    returns (out: string, outLength: nat)
    requires Renders(f, stack, allowAboveRoot, res, lastSegmentLength)
    requires SepFree(f, seg) && dots == DotCount(seg)
    ensures Renders(f, Step(stack, seg, allowAboveRoot), allowAboveRoot, out, outLength)
  {
    DotCountNames(seg);
    StepClean(f, stack, seg, allowAboveRoot);
    JoinNonEmpty(f, stack, allowAboveRoot);
    if seg == "" || dots == 1 {
      return res, lastSegmentLength;
    } else if dots == 2 {
      TopIsDotDot(f, stack, allowAboveRoot);
      if |res| < 2 || lastSegmentLength != 2 || res[|res| - 1] != '.' || res[|res| - 2] != '.' {
        if |res| > 2 {
          PopRenders(f, stack, allowAboveRoot, res, lastSegmentLength);
          var idx := |res| - lastSegmentLength - 1;
          if idx == -1 {
            return "", 0;
          } else {
            var trimmed := res[..idx];
            return trimmed, |trimmed| - 1 - LastIndexOf(trimmed, f.Sep());
          }
        } else if |res| != 0 {
          return "", 0;
        }
      }
      if allowAboveRoot {
        PushRenders(f, stack, allowAboveRoot, res, lastSegmentLength, "..");
        out := res;
        if |out| > 0 {
          out := out + [f.Sep()];
        }
        return out + "..", 2;
      }
      return res, lastSegmentLength;
    } else {
      PushRenders(f, stack, allowAboveRoot, res, lastSegmentLength, seg);
      out := res;
      if |out| > 0 {
        out := out + [f.Sep()];
      }
      return out + seg, |seg|;
    }
  }

  /** The scan stands at i, the current segment began at start, everything before it is on the stack. */
  ghost predicate Scanning(f: Flavour, path: string, keepAbove: bool, start: int, i: int, dots: int, stack: seq<string>) {
    && 0 <= start <= i <= |path|
    && dots == DotCount(path[start..i])
    && SepFree(f, path[start..i])
    && Resolve(stack, SplitFrom(f, path[start..i], path[i..]), keepAbove) == Stack(f, path, keepAbove)
  }

  lemma ScanStart(f: Flavour, path: string, keepAbove: bool)
    ensures Scanning(f, path, keepAbove, 0, 0, 0, [])
  {
    assert path[0..] == path;
  }

  lemma ScanOther(f: Flavour, path: string, keepAbove: bool, start: int, i: int, dots: int, stack: seq<string>)
    requires Scanning(f, path, keepAbove, start, i, dots, stack) && i < |path| && !f.IsSep(path[i])
    ensures Scanning(f, path, keepAbove, start, i + 1, if path[i] == '.' && dots != -1 then dots + 1 else -1, stack)
  {
    assert path[start..i + 1] == path[start..i] + [path[i]];
    assert path[i..][1..] == path[i + 1..];
    DotCountStep(path[start..i], path[i]);
  }

  lemma ScanSeparator(f: Flavour, path: string, keepAbove: bool, start: int, i: int, dots: int, stack: seq<string>)
    requires Scanning(f, path, keepAbove, start, i, dots, stack) && i < |path| && f.IsSep(path[i])
    ensures Scanning(f, path, keepAbove, i + 1, i + 1, 0, Step(stack, path[start..i], keepAbove))
  {
    assert path[i..][1..] == path[i + 1..] && path[i + 1..i + 1] == "";
    var segs := SplitFrom(f, path[start..i], path[i..]);
    assert segs[1..] == Split(f, path[i + 1..]);
  }

  lemma ScanEnd(f: Flavour, path: string, keepAbove: bool, start: int, dots: int, stack: seq<string>)
    requires Scanning(f, path, keepAbove, start, |path|, dots, stack)
    ensures Step(stack, path[start..|path|], keepAbove) == Stack(f, path, keepAbove)
  {
    var seg := path[start..|path|];
    assert Resolve(stack, [seg], keepAbove) == Resolve(Step(stack, seg, keepAbove), [seg][1..], keepAbove);
  }

  /** One separator, or the end of the path standing in for one: the segment before it is closed. */
  method AtSeparator(path: string, i: nat, lastSlash: int, res: string, lastSegmentLength: nat, dots: int,
                     allowAboveRoot: bool, f: Flavour, ghost stack: seq<string>)
    returns (out: string, outLength: nat)
    requires Renders(f, stack, allowAboveRoot, res, lastSegmentLength)
    requires Scanning(f, path, allowAboveRoot, lastSlash + 1, i, dots, stack)
    requires i < |path| ==> f.IsSep(path[i])
    ensures var next := Step(stack, path[lastSlash + 1..i], allowAboveRoot);
            && Renders(f, next, allowAboveRoot, out, outLength)
            && (if i < |path| then Scanning(f, path, allowAboveRoot, i + 1, i + 1, 0, next)
                else next == Stack(f, path, allowAboveRoot))
  {
    if i < |path| {
      ScanSeparator(f, path, allowAboveRoot, lastSlash + 1, i, dots, stack);
    } else {
      ScanEnd(f, path, allowAboveRoot, lastSlash + 1, dots, stack);
    }
    out, outLength := CloseSegment(res, lastSegmentLength, dots, path[lastSlash + 1..i], allowAboveRoot, f, stack);
  }

  method NormalizeSegments(path: string, allowAboveRoot: bool, f: Flavour) returns (res: string)
    ensures res == Join(Stack(f, path, allowAboveRoot), f.Sep())
  {
    res := "";
    var lastSegmentLength, lastSlash, dots := 0, -1, 0;
    var code := '\0';
    ghost var stack: seq<string> := [];
    ScanStart(f, path, allowAboveRoot);
    var i := 0;
    while i <= |path|
      invariant 0 <= i <= |path| + 1
      invariant Renders(f, stack, allowAboveRoot, res, lastSegmentLength)
      invariant i <= |path| ==> Scanning(f, path, allowAboveRoot, lastSlash + 1, i, dots, stack)
      invariant 0 < i <= |path| ==> code == path[i - 1] && (f.IsSep(code) ==> lastSlash == i - 1)
      invariant i == 0 ==> code == '\0'
      invariant i == |path| + 1 ==> stack == Stack(f, path, allowAboveRoot)
    {
      if i < |path| {
        code := path[i];
      } else if f.IsSep(code) {
        ScanEnd(f, path, allowAboveRoot, lastSlash + 1, dots, stack);
        break;
      } else {
        code := f.Sep();
      }

      if f.IsSep(code) {
        res, lastSegmentLength :=
          AtSeparator(path, i, lastSlash, res, lastSegmentLength, dots, allowAboveRoot, f, stack);
        stack := Step(stack, path[lastSlash + 1..i], allowAboveRoot);
        lastSlash, dots := i, 0;
      } else {
        ScanOther(f, path, allowAboveRoot, lastSlash + 1, i, dots, stack);
        if code == '.' && dots != -1 {
          dots := dots + 1;
        } else {
          dots := -1;
        }
      }
      i := i + 1;
    }
  }
}
