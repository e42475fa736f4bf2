/**
 The posix half of bridge/internal/configdir/lexical.go: normalizePosix, JoinPosix, DirnamePosix.
 */
module PosixPaths {
  import opened SegmentLaws
  import opened Segments

  predicate IsAbsolute(value: string) {
    value != "" && value[0] == '/'
  }

  predicate Trailing(value: string) {
    value != "" && value[|value| - 1] == '/'
  }

  function Segs(value: string): seq<string> {
    Stack(Posix, value, !IsAbsolute(value))
  }

  /** The text of a normal form: rooted or not, its segments, and whether it ends in a separator. */
  function Render(absolute: bool, stack: seq<string>, trailing: bool): string {
    if stack == [] then
      if absolute then "/" else if trailing then "./" else "."
    else (if absolute then "/" else "") + Join(stack, '/') + (if trailing then "/" else "")
  }

  function NormalForm(value: string): string {
    Render(IsAbsolute(value), Segs(value), Trailing(value))
  }

  method NormalizePosix(value: string) returns (r: string)
    ensures r == NormalForm(value)
  {
    if |value| == 0 {
      assert SplitFrom(Posix, "", "") == [""];
      assert Resolve([], [""], true) == Resolve([], [""][1..], true);
      return ".";
    }
    var absolute := value[0] == '/';
    var trailingSeparator := value[|value| - 1] == '/';
    var normalized := NormalizeSegments(value, !absolute, Posix);
    StackClean(Posix, value, !absolute);
    JoinNonEmpty(Posix, Segs(value), !absolute);
    if |normalized| == 0 {
      if absolute {
        return "/";
      }
      if trailingSeparator {
        return "./";
      }
      return ".";
    }
    if trailingSeparator {
      normalized := normalized + "/";
    }
    if absolute {
      return "/" + normalized;
    }
    return normalized;
  }

  // ---------------------------------------------------------------- re-reading a normal form

  lemma JoinEnds(stack: seq<string>, keepAbove: bool)
    requires Clean(Posix, stack, keepAbove) && stack != []
    ensures var text := Join(stack, '/'); text != "" && text[0] != '/' && text[|text| - 1] != '/'
  {
    JoinNonEmpty(Posix, stack, keepAbove);
    var text := Join(stack, '/');
    assert text[|text| - |Last(stack)|..] == Last(stack);
    assert text[|text| - 1] == Last(stack)[|Last(stack)| - 1];
    JoinStarts(stack, keepAbove);
  }

  lemma {:induction false} JoinStarts(stack: seq<string>, keepAbove: bool)
    requires Clean(Posix, stack, keepAbove) && stack != []
    ensures var text := Join(stack, '/'); text != "" && text[0] == stack[0][0]
    decreases |stack|
  {
    if |stack| > 1 {
      JoinStarts(Front(stack), keepAbove);
    }
  }

  /** Render is read back exactly: root, segments and trailing separator. */
  lemma ReadRender(absolute: bool, stack: seq<string>, trailing: bool)
    requires Clean(Posix, stack, !absolute)
    ensures var text := Render(absolute, stack, trailing);
            && text != ""
            && IsAbsolute(text) == absolute
            && Segs(text) == stack
            && (stack != [] || !absolute ==> Trailing(text) == trailing)
  {
    var text := Render(absolute, stack, trailing);
    if stack == [] {
      ReadEmpty();
    } else {
      var body := Join(stack, '/');
      JoinEnds(stack, !absolute);
      StackOfJoin(Posix, stack, !absolute);
      var rooted := if absolute then "" + ['/'] + body else body;
      if absolute {
        StackConcat(Posix, "", '/', body, false);
        assert SplitFrom(Posix, "", "") == [""];
        ResolveSkipsEmpty([], false);
      }
      assert Stack(Posix, rooted, !absolute) == stack;
      if trailing {
        assert text == rooted + ['/'] + "";
        StackConcat(Posix, rooted, '/', "", !absolute);
        assert SplitFrom(Posix, "", "") == [""];
        ResolveSkipsEmpty(stack, !absolute);
      } else {
        assert text == rooted;
      }
    }
  }

  lemma ReadEmpty()
    ensures Segs("/") == [] && Segs(".") == [] && Segs("./") == []
  {
    assert SplitFrom(Posix, "", "") == [""];
    assert "" + ['/'] + "" == "/" && "." + ['/'] + "" == "./";
    StackConcat(Posix, "", '/', "", false);
    StackConcat(Posix, ".", '/', "", true);
    SplitPlain(Posix, "", ".");
    assert "" + "." == ".";
    ResolveSkipsEmpty([], false);
    ResolveSkipsEmpty([], true);
    assert Resolve([], ["."], true) == Resolve([], ["."][1..], true);
  }

  lemma ReadNormalForm(value: string)
    ensures var n := NormalForm(value);
            && n != ""
            && IsAbsolute(n) == IsAbsolute(value)
            && Segs(n) == Segs(value)
            && (Segs(value) != [] || !IsAbsolute(value) ==> Trailing(n) == Trailing(value))
  {
    StackClean(Posix, value, !IsAbsolute(value));
    ReadRender(IsAbsolute(value), Segs(value), Trailing(value));
  }

  lemma SameNormalForm(d: string, p: string, q: string, x: string)
    requires d != "" && d <= p && d <= q && x != "" && Segs(p + x) == Segs(q + x)
    ensures NormalForm(p + x) == NormalForm(q + x)
  {
    assert (p + x)[0] == d[0] == (q + x)[0];
    assert (p + x)[|p + x| - 1] == x[|x| - 1] == (q + x)[|q + x| - 1];
  }

  /** In front of whatever follows, a plain name and ".." cancel. */
  lemma NameCancels(d: string, name: string, x: string)
    requires d != "" && SepFree(Posix, name) && name !in {"", ".", ".."} && x != ""
    ensures NormalForm((d + "/" + name + "/../") + x) == NormalForm((d + "/") + x)
  {
    DotDotTakesOneBack(Posix, d, '/', name, x, !IsAbsolute(d));
    assert (d + "/") + x == d + ['/'] + x;
    assert (d + "/" + name + "/../") + x == d + ['/'] + name + ['/'] + ".." + ['/'] + x;
    SameNormalForm(d, d + "/" + name + "/../", d + "/", x);
  }

  /** So do "." and a doubled separator. */
  lemma DotCancels(d: string, x: string)
    requires d != "" && x != ""
    ensures NormalForm((d + "/./") + x) == NormalForm((d + "/") + x) == NormalForm((d + "//") + x)
  {
    DotsAndEmptyVanish(Posix, d, '/', x, !IsAbsolute(d));
    assert (d + "/") + x == d + ['/'] + x;
    assert (d + "/./") + x == d + ['/'] + "." + ['/'] + x;
    assert (d + "//") + x == d + ['/'] + ['/'] + x;
    SameNormalForm(d, d + "/./", d + "/", x);
    SameNormalForm(d, d + "//", d + "/", x);
  }

  lemma NormalizeIdempotent(value: string)
    ensures NormalForm(NormalForm(value)) == NormalForm(value)
  {
    ReadNormalForm(value);
  }

  /**
   What an absolute normal form looks like: "/" followed by segments none of which is "", "." or
   "..", and one optional trailing "/".
   */
  lemma AbsoluteNormalFormPlain(value: string)
    requires IsAbsolute(value)
    ensures forall i | 0 <= i < |Segs(value)| :: Segs(value)[i] !in {"", ".", ".."} && '/' !in Segs(value)[i]
    ensures NormalForm(value)
         == "/" + Join(Segs(value), '/') + (if Trailing(value) && Segs(value) != [] then "/" else "")
  {
    forall i | 0 <= i < |Segs(value)|
      ensures Segs(value)[i] !in {"", ".", ".."} && '/' !in Segs(value)[i]
    {
      RootedStackPlain(Posix, value, i);
    }
  }

  // ---------------------------------------------------------------- join

  function Concat(parts: seq<string>): string {
    if parts == [] then ""
    else if parts[|parts| - 1] == "" then Concat(parts[..|parts| - 1])
    else if Concat(parts[..|parts| - 1]) == "" then parts[|parts| - 1]
    else Concat(parts[..|parts| - 1]) + "/" + parts[|parts| - 1]
  }

  /** path.posix.join on any number of parts. */
  function Joined(parts: seq<string>): string {
    if Concat(parts) == "" then "." else NormalForm(Concat(parts))
  }

  method JoinPosix(parts: seq<string>) returns (r: string)
    ensures r == Joined(parts)
  {
    var joined := "";
    var first := true;
    for i := 0 to |parts|
      invariant joined == Concat(parts[..i])
      invariant first == (joined == "")
    {
      assert parts[..i + 1][..i] == parts[..i];
      if parts[i] == "" {
        continue;
      }
      if first {
        joined := parts[i];
        first := false;
      } else {
        joined := joined + "/" + parts[i];
      }
    }
    assert parts[..|parts|] == parts;
    if first {
      return ".";
    }
    r := NormalizePosix(joined);
  }

  lemma {:induction false} ConcatSplit(a: seq<string>, b: seq<string>)
    ensures Concat(a + b)
         == if Concat(b) == "" then Concat(a)
            else if Concat(a) == "" then Concat(b)
            else Concat(a) + "/" + Concat(b)
    decreases |b|
  {
    if b == [] {
      assert a + b == a;
    } else {
      var front := b[..|b| - 1];
      ConcatSplit(a, front);
      assert (a + b)[..|a + b| - 1] == a + front;
    }
  }

  /** Normalising the left operand of a concatenation does not change the normal form of the whole. */
  lemma NormalizeLeft(x: string, y: string)
    requires x != ""
    ensures NormalForm(NormalForm(x) + "/" + y) == NormalForm(x + "/" + y)
  {
    var n := NormalForm(x);
    ReadNormalForm(x);
    var keep := !IsAbsolute(x);
    StackConcat(Posix, n, '/', y, keep);
    StackConcat(Posix, x, '/', y, keep);
    assert x + "/" + y == x + ['/'] + y && n + "/" + y == n + ['/'] + y;
  }

  /** Joining a prefix first is only visible when that prefix is all empty and what follows is absolute. */
  predicate LeftAssociates(parts: seq<string>, rest: seq<string>) {
    Concat(parts) != "" || !IsAbsolute(Concat(rest))
  }

  /**
   Left associativity, exactly. With every inner part empty the inner join is "." and an absolute
   outer part then loses its root: Joined([Joined([]), "/x"]) is "x", Joined(["/x"]) is "/x".
   */
  lemma JoinLeftAssociative(parts: seq<string>, rest: seq<string>)
    ensures Joined([Joined(parts)] + rest) == Joined(parts + rest) <==> LeftAssociates(parts, rest)
  {
    var left, right := Concat(parts), Concat(rest);
    ConcatSplit(parts, rest);
    JoinedFirst(Joined(parts), rest);
    if left == "" {
      DotSlash(right);
    } else {
      ReadNormalForm(left);
      NormalizeIdempotent(left);
      NormalizeLeft(left, right);
    }
  }

  /** The smallest instance where joining in two steps differs from joining at once. */
  lemma JoinNotAssociative()
    ensures Joined([Joined([""]), "/x"]) != Joined(["", "/x"])
  {
    assert [""][..0] == [] && ["/x"][..0] == [];
    assert Concat([""]) == "" && Concat(["/x"]) == "/x";
    JoinLeftAssociative([""], ["/x"]);
    assert [Joined([""])] + ["/x"] == [Joined([""]), "/x"] && [""] + ["/x"] == ["", "/x"];
  }

  lemma JoinedFirst(first: string, rest: seq<string>)
    ensures Joined([first] + rest) == JoinTwo(first, Concat(rest))
  {
    assert [first][..0] == [];
    assert Concat([first]) == first;
    ConcatSplit([first], rest);
  }

  function JoinTwo(a: string, b: string): string {
    if a == "" && b == "" then "."
    else NormalForm(if b == "" then a else if a == "" then b else a + "/" + b)
  }

  /** "./" in front of a text drops a root and changes nothing else. */
  lemma DotSlash(y: string)
    ensures JoinTwo(".", y) == JoinTwo("", y) <==> !IsAbsolute(y)
  {
    ReadEmpty();
    if y != "" {
      assert "." + "/" + y == "." + ['/'] + y;
      StackConcat(Posix, ".", '/', y, true);
      ReadNormalForm(y);
      ReadNormalForm("." + "/" + y);
    }
  }

  // ---------------------------------------------------------------- dirname

  /**
   path.posix.dirname, declaratively: the cut is at the last separator, other than one at index 0,
   that still has a non-separator to its right.
   */
  predicate CutAt(value: string, k: int) {
    && 1 <= k < |value| && value[k] == '/'
    && (exists j :: k < j < |value| && value[j] != '/')
  }

  /** The last cut at or before i, or -1. */
  function LastCut(value: string, i: int): (k: int)
    requires i < |value|
    ensures k == -1 || (CutAt(value, k) && k <= i)
    ensures forall m | CutAt(value, m) && m <= i :: m <= k
    decreases i
  {
    if i < 1 then -1 else if CutAt(value, i) then i else LastCut(value, i - 1)
  }

  function Dirname(value: string): string {
    if value == "" then "."
    else
      var k := LastCut(value, |value| - 1);
      if k == -1 then if IsAbsolute(value) then "/" else "."
      else if IsAbsolute(value) && k == 1 then "//"
      else value[..k]
  }

  method DirnamePosix(value: string) returns (dir: string)
    ensures dir == Dirname(value)
  {
    if |value| == 0 {
      return ".";
    }
    var hasRoot := value[0] == '/';
    var end := -1;
    var matchedSlash := true;
    var i := |value| - 1;
    while i >= 1
      invariant 0 <= i < |value|
      invariant end == -1
      invariant matchedSlash == forall j | i < j < |value| :: value[j] == '/'
      invariant forall k | i < k < |value| :: !CutAt(value, k)
    {
      if value[i] == '/' {
        if !matchedSlash {
          end := i;
          break;
        }
      } else {
        matchedSlash := false;
      }
      i := i - 1;
    }
    if end == -1 {
      if hasRoot {
        return "/";
      }
      return ".";
    }
    assert CutAt(value, end);
    assert LastCut(value, |value| - 1) == end;
    if hasRoot && end == 1 {
      return "//";
    }
    return value[..end];
  }

  /** The normal form of a directory, without the trailing separator a normal form may keep. */
  function DirForm(d: string): string {
    Render(IsAbsolute(d), Segs(d), false)
  }

  predicate PlainName(name: string) {
    name !in {"", ".", ".."} && '/' !in name
  }

  /** Reading one more segment is one more step. */
  lemma StepLast(head: string, name: string)
    requires '/' !in name
    ensures Stack(Posix, head + "/" + name, false) == Step(Stack(Posix, head, false), name, false)
  {
    assert head + "/" + name == head + ['/'] + name;
    OneMore(Posix, head, '/', name, false);
  }

  lemma JoinedFile(d: string, name: string)
    requires IsAbsolute(d) && PlainName(name)
    ensures Joined([d, name]) == Render(true, Segs(d) + [name], false)
  {
    assert [d, name] == [d] + [name] && [name][..0] == [];
    JoinedFirst(d, [name]);
    assert Concat([name]) == name;
    var text := d + "/" + name;
    StepLast(d, name);
    assert text[|text| - 1] == name[|name| - 1];
  }

  /** The directory of a rendered rooted stack is the stack below the top. */
  lemma DirnameOfRender(stack: seq<string>, name: string)
    requires Clean(Posix, stack, false) && PlainName(name)
    ensures Dirname(Render(true, stack + [name], false)) == Render(true, stack, false)
  {
    var text := Render(true, stack + [name], false);
    PushJoin(stack, name, '/');
    if stack == [] {
      assert text == "/" + name;
      assert forall m | 1 <= m < |text| :: text[m] == name[m - 1];
    } else {
      var dir := "/" + Join(stack, '/');
      JoinEnds(stack, false);
      CutBeforeName(dir, name, text);
    }
  }

  lemma CutBeforeName(dir: string, name: string, text: string)
    requires |dir| > 1 && PlainName(name) && text == dir + "/" + name
    ensures LastCut(text, |text| - 1) == |dir| && text[..|dir|] == dir
  {
    assert text[..|dir|] == dir;
    assert forall m | |dir| < m < |text| :: text[m] == name[m - |dir| - 1];
    assert text[|dir| + 1] != '/';
    assert CutAt(text, |dir|);
  }

  /** The directory of a file joined onto an absolute directory is that directory's normal form. */
  lemma DirnameOfJoin(d: string, name: string)
    requires IsAbsolute(d) && PlainName(name)
    ensures Dirname(Joined([d, name])) == DirForm(d)
  {
    JoinedFile(d, name);
    StackClean(Posix, d, false);
    DirnameOfRender(Segs(d), name);
  }

  // ---------------------------------------------------------------- containment

  /** r is the normal form of a directory's segments followed by the names. */
  predicate Pushed(d: string, names: seq<string>, r: string) {
    r == Render(true, Segs(d) + names, false) && IsAbsolute(r) && Segs(r) == Segs(d) + names
  }

  lemma NamePushed(d: string, name: string)
    requires IsAbsolute(d) && PlainName(name)
    ensures Pushed(d, [name], Joined([d, name]))
  {
    JoinedFile(d, name);
    StackClean(Posix, d, false);
    ReadRender(true, Segs(d) + [name], false);
  }

  /** What path resolves to is one plain name below what parent resolves to. */
  ghost predicate Contains(parent: string, path: string) {
    && IsAbsolute(parent) && IsAbsolute(path)
    && exists name | PlainName(name) :: Segs(path) == Segs(parent) + [name]
  }

  /** A text without its trailing separators. */
  function Trimmed(value: string): (t: string)
    ensures t <= value && (t != "" ==> t[|t| - 1] != '/')
    ensures forall i | |t| <= i < |value| :: value[i] == '/'
  {
    if Trailing(value) then Trimmed(value[..|value| - 1]) else value
  }

  /** What dirname cuts off: the text behind the last separator that is not trailing. */
  function FinalName(value: string): string {
    var t := Trimmed(value);
    t[LastIndexOf(t, '/') + 1..]
  }

  lemma {:induction false} TrimmedStack(value: string)
    ensures Stack(Posix, value, false) == Stack(Posix, Trimmed(value), false)
    decreases |value|
  {
    if Trailing(value) {
      var front := value[..|value| - 1];
      assert value == front + ['/'] + "";
      StackConcat(Posix, front, '/', "", false);
      assert SplitFrom(Posix, "", "") == [""];
      ResolveSkipsEmpty(Stack(Posix, front, false), false);
      TrimmedStack(front);
    }
  }

  lemma SeparatorStacks()
    ensures Stack(Posix, "", false) == [] && Segs("/") == [] && Segs("//") == []
  {
    ReadEmpty();
    assert SplitFrom(Posix, "", "") == [""];
    ResolveSkipsEmpty([], false);
    assert "/" + ['/'] + "" == "//";
    StackConcat(Posix, "/", '/', "", false);
  }

  /** Dirname cuts at the separator before the final name; a cut at the root keeps the root. */
  lemma DirnameCut(value: string, k: nat)
    requires IsAbsolute(value) && k < |Trimmed(value)| && k == LastIndexOf(Trimmed(value), '/')
    ensures Dirname(value) == if k == 0 then "/" else if k == 1 then "//" else value[..k]
  {
    var t := Trimmed(value);
    assert value[|t| - 1] == t[|t| - 1] && value[k] == t[k];
    assert forall i | k < i < |t| :: value[i] == t[i] && value[i] != '/';
    assert k >= 1 ==> CutAt(value, k);
    assert forall m | CutAt(value, m) :: m <= k;
  }

  lemma DirnameStack(value: string, k: nat)
    requires IsAbsolute(value) && k < |Trimmed(value)| && k == LastIndexOf(Trimmed(value), '/')
    ensures IsAbsolute(Dirname(value)) && Segs(Dirname(value)) == Stack(Posix, value[..k], false)
  {
    DirnameCut(value, k);
    SeparatorStacks();
    assert k == 0 ==> value[..k] == "";
    assert k == 1 ==> value[..k] == "/";
  }

  /** An absolute value steps by its final name from its directory. */
  lemma SegsByFinalName(value: string)
    requires IsAbsolute(value) && Trimmed(value) != ""
    ensures var name := FinalName(value);
            && name != "" && '/' !in name && IsAbsolute(Dirname(value))
            && Segs(value) == Step(Segs(Dirname(value)), name, false)
  {
    var t := Trimmed(value);
    assert t[0] == value[0];
    var k, name := LastIndexOf(t, '/'), FinalName(value);
    TrimmedStack(value);
    assert t == value[..k] + "/" + name;
    StepLast(value[..k], name);
    DirnameStack(value, k);
  }

  /**
   A value lies in its own dirname exactly when its final name is a plain one: behind "." and ".." dirname
   names a directory that the value does not lie in.
   */
  lemma DirnameContains(value: string)
    requires IsAbsolute(value)
    ensures Contains(Dirname(value), value) <==> PlainName(FinalName(value))
  {
    if Trimmed(value) == "" {
      TrimmedStack(value);
      SeparatorStacks();
    } else {
      SegsByFinalName(value);
      var dir, name := Segs(Dirname(value)), FinalName(value);
      if PlainName(name) {
        assert Segs(value) == dir + [name];
      } else {
        assert |Segs(value)| <= |dir|;
      }
    }
  }
}
