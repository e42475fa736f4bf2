/**
 src/utils/minimatch.ts: a glob is compiled to the text of a regular expression. The text is read back
 and matched as JavaScript does (without flags: the dot stops at line terminators, a negated class does
 not), and compared with what the glob denotes. A char stands for one UTF-16 unit.
 */
module GlobPatterns {
  import opened JsText
  import opened Options

  // ---------------------------------------------------------------- what a glob denotes

  /** One path segment or less. */
  predicate InSegment(t: string) {
    forall i | 0 <= i < |t| :: t[i] != '/'
  }

  /** Two stars, and the slash after them if there is one. */
  function AfterStars(p: string): string
    requires |p| >= 2
  {
    if |p| > 2 && p[2] == '/' then p[3..] else p[2..]
  }

  /** Two stars stand for any path; unless across, it may not leave the line. */
  predicate Denotes(p: string, t: string, across: bool)
    decreases |p|
  {
    if p == "" then t == ""
    else if p[0] == '*' && |p| > 1 && p[1] == '*' then
      exists k :: 0 <= k <= |t| && (across || OneLine(t[..k])) && Denotes(AfterStars(p), t[k..], across)
    else if p[0] == '*' then exists k :: 0 <= k <= |t| && InSegment(t[..k]) && Denotes(p[1..], t[k..], across)
    else if p[0] == '?' then t != "" && t[0] != '/' && Denotes(p[1..], t[1..], across)
    else t != "" && t[0] == p[0] && Denotes(p[1..], t[1..], across)
  }

  // ---------------------------------------------------------------- regular expressions

  datatype Atom = AnyInLine | NotSlash | Literal(c: char)

  datatype Item = Start | End | One(atom: Atom) | Many(atom: Atom)

  predicate IsSyntax(c: char) {
    || c == '^' || c == '$' || c == '\\' || c == '.' || c == '*' || c == '+' || c == '?'
    || c == '(' || c == ')' || c == '[' || c == ']' || c == '{' || c == '}' || c == '|'
  }

  predicate Accepts(a: Atom, c: char) {
    match a
    case AnyInLine => !IsLineTerminator(c)
    case NotSlash => c != '/'
    case Literal(d) => c == d
  }

  /** The atom at the start of the text, and its length. */
  function ReadAtom(text: string): (r: Option<(Atom, nat)>)
    ensures r.Some? ==> 0 < r.value.1 <= |text|
  {
    if text == "" then None
    else if text[0] == '.' then Some((AnyInLine, 1))
    else if "[^/]" <= text then Some((NotSlash, 4))
    else if text[0] == '\\' && |text| > 1 && IsSyntax(text[1]) then Some((Literal(text[1]), 2))
    else if IsSyntax(text[0]) then None
    else Some((Literal(text[0]), 1))
  }

  /** The items of a text in this part of the grammar; anything else is refused. */
  function Parse(text: string): Option<seq<Item>>
    decreases |text|
  {
    if text == "" then Some([])
    else if text[0] == '^' then Prepend(Start, Parse(text[1..]))
    else if text[0] == '$' then Prepend(End, Parse(text[1..]))
    else
      var atom := ReadAtom(text);
      if atom.None? then None
      else
        var (a, n) := atom.value;
        if n < |text| && text[n] == '*' then Prepend(Many(a), Parse(text[n + 1..])) else Prepend(One(a), Parse(text[n..]))
  }

  function Prepend(item: Item, items: Option<seq<Item>>): Option<seq<Item>> {
    if items.Some? then Some([item] + items.value) else None
  }

  /** The items match at position i of the subject, with some choice of repetitions. */
  predicate MatchAt(items: seq<Item>, s: string, i: nat)
    requires i <= |s|
    decreases |items|, |s| - i
  {
    if items == [] then true
    else
      match items[0]
      case Start => i == 0 && MatchAt(items[1..], s, i)
      case End => i == |s| && MatchAt(items[1..], s, i)
      case One(a) => i < |s| && Accepts(a, s[i]) && MatchAt(items[1..], s, i + 1)
      case Many(a) => MatchAt(items[1..], s, i) || (i < |s| && Accepts(a, s[i]) && MatchAt(items, s, i + 1))
  }

  /** A search from every position. */
  predicate Test(items: seq<Item>, s: string) {
    exists i :: 0 <= i <= |s| && MatchAt(items, s, i)
  }

  // ---------------------------------------------------------------- compilation

  /** The text for the glob's first construct, and what is left of the glob. */
  function Piece(p: string): (r: (string, string))
    requires p != ""
    ensures |r.1| < |p|
  {
    if p[0] == '*' && |p| > 1 && p[1] == '*' then (".*", AfterStars(p))
    else if p[0] == '*' then ("[^/]*", p[1..])
    else if p[0] == '?' then ("[^/]", p[1..])
    else if IsSyntax(p[0]) then ("\\" + [p[0]], p[1..])
    else ([p[0]], p[1..])
  }

  function Body(p: string): string
    decreases |p|
  {
    if p == "" then "" else Piece(p).0 + Body(Piece(p).1)
  }

  function ItemOf(p: string): Item
    requires p != ""
  {
    if p[0] == '*' && |p| > 1 && p[1] == '*' then Many(AnyInLine)
    else if p[0] == '*' then Many(NotSlash)
    else if p[0] == '?' then One(NotSlash)
    else One(Literal(p[0]))
  }

  function Items(p: string): seq<Item>
    decreases |p|
  {
    if p == "" then [End] else [ItemOf(p)] + Items(Piece(p).1)
  }

  method GlobToRegex(pattern: string) returns (text: string)
    ensures Parse(text).Some?
    ensures forall s :: Test(Parse(text).value, s) <==> Denotes(pattern, s, false)
  {
    text := "^";
    var i := 0;
    while i < |pattern|
      invariant 0 <= i <= |pattern|
      invariant text + Body(pattern[i..]) == "^" + Body(pattern)
    {
      var c := pattern[i];
      ghost var before, p := text, pattern[i..];
      assert p[1..] == pattern[i + 1..];
      if c == '*' && i + 1 < |pattern| && pattern[i + 1] == '*' {
        text := text + ".*";
        i := i + 2;
        if i < |pattern| && pattern[i] == '/' {
          i := i + 1;
        }
        assert pattern[i..] == AfterStars(p);
      } else {
        if c == '*' {
          text := text + "[^/]*";
        } else if c == '?' {
          text := text + "[^/]";
        } else if c == '.' {
          text := text + "\\.";
        } else if c == '(' || c == ')' || c == '[' || c == ']' || c == '{' || c == '}' || c == '+'
                  || c == '^' || c == '$' || c == '|' || c == '\\' {
          text := text + ("\\" + [c]);
        } else {
          text := text + [c];
        }
        i := i + 1;
      }
      assert text == before + Piece(p).0 && pattern[i..] == Piece(p).1;
      Associate(before, Piece(p).0, Body(Piece(p).1));
    }
    text := text + "$";
    assert text == "^" + Body(pattern) + "$";
    CompilePreserves(pattern);
  }

  method Minimatch(str: string, pattern: string) returns (matches: bool)
    ensures matches == Denotes(pattern, str, false)
  {
    var regex := GlobToRegex(pattern);
    matches := exists i :: 0 <= i <= |str| && MatchAt(Parse(regex).value, str, i);
  }

  lemma StarParses(atom: string, a: Atom, rest: string, text: string)
    requires text == atom + "*" + rest && ReadAtom(text) == Some((a, |atom|))
    requires atom != "" && atom[0] != '^' && atom[0] != '$'
    ensures Parse(text) == Prepend(Many(a), Parse(rest))
  {
    assert text[0] == atom[0] && text[|atom|] == '*' && text[|atom| + 1..] == rest;
  }

  lemma OneParses(atom: string, a: Atom, rest: string, text: string)
    requires text == atom + rest && rest != "" && rest[0] != '*' && ReadAtom(text) == Some((a, |atom|))
    requires atom != "" && atom[0] != '^' && atom[0] != '$'
    ensures Parse(text) == Prepend(One(a), Parse(rest))
  {
    assert text[0] == atom[0] && text[|atom|] == rest[0] && text[|atom|..] == rest;
  }

  /** Each construct's text is read back as its item, whatever text without a leading star follows. */
  lemma PieceParses(p: string, rest: string, text: string)
    requires p != "" && rest != "" && rest[0] != '*' && text == Piece(p).0 + rest
    ensures Parse(text) == Prepend(ItemOf(p), Parse(rest)) && text[0] != '*'
  {
    if p[0] == '*' && |p| > 1 && p[1] == '*' {
      assert "." + "*" == ".*" && text[0] == '.';
      StarParses(".", AnyInLine, rest, text);
    } else if p[0] == '*' {
      assert "[^/]" + "*" == "[^/]*" && text[..4] == "[^/]" && text[0] == '[';
      StarParses("[^/]", NotSlash, rest, text);
    } else if p[0] == '?' {
      assert text[..4] == "[^/]" && text[0] == '[';
      OneParses("[^/]", NotSlash, rest, text);
    } else if IsSyntax(p[0]) {
      assert text[0] == '\\' && text[1] == p[0];
      OneParses("\\" + [p[0]], Literal(p[0]), rest, text);
    } else {
      assert text[0] == p[0] && [p[0]] + rest == text;
      OneParses([p[0]], Literal(p[0]), rest, text);
    }
  }

  lemma {:induction false} BodyParses(p: string)
    ensures (Body(p) + "$")[0] != '*'
    ensures Parse(Body(p) + "$") == Some(Items(p))
    decreases |p|
  {
    if p == "" {
      assert Body(p) + "$" == "$" && ("$")[1..] == "" && [End] + [] == Items(p);
    } else {
      var rest := Body(Piece(p).1) + "$";
      BodyParses(Piece(p).1);
      assert Body(p) + "$" == Piece(p).0 + rest;
      PieceParses(p, rest, Piece(p).0 + rest);
    }
  }

  /** What a starred construct may stand for. */
  predicate Absorbs(a: Atom, t: string) {
    forall j | 0 <= j < |t| :: Accepts(a, t[j])
  }

  /** A starred atom matches as many accepted characters as one likes. */
  lemma {:induction false} ManyMeans(a: Atom, items: seq<Item>, s: string, i: nat)
    requires i <= |s|
    ensures MatchAt([Many(a)] + items, s, i) <==> exists k :: i <= k <= |s| && Absorbs(a, s[i..k]) && MatchAt(items, s, k)
    decreases |s| - i
  {
    var all := [Many(a)] + items;
    assert all[1..] == items;
    if MatchAt(items, s, i) {
      assert Absorbs(a, s[i..i]);
    } else if i < |s| && Accepts(a, s[i]) {
      ManyMeans(a, items, s, i + 1);
      forall k | i + 1 <= k <= |s|
        ensures Absorbs(a, s[i..k]) <==> Absorbs(a, s[i + 1..k])
      {
        assert s[i..k] == [s[i]] + s[i + 1..k];
      }
      assert MatchAt(all, s, i) <==> exists k :: i + 1 <= k <= |s| && Absorbs(a, s[i + 1..k]) && MatchAt(items, s, k);
    } else {
      forall k | i < k <= |s|
        ensures !Absorbs(a, s[i..k])
      {
        assert s[i..k][0] == s[i];
      }
    }
  }

  lemma {:induction false} ItemsMean(p: string, s: string, i: nat)
    requires i <= |s|
    ensures MatchAt(Items(p), s, i) <==> Denotes(p, s[i..], false)
    decreases |p|
  {
    if p == "" {
      assert [End][1..] == [];
    } else {
      var rest, items := Piece(p).1, Items(Piece(p).1);
      assert Items(p)[1..] == items;
      if p[0] == '*' {
        forall k | i <= k <= |s|
          ensures MatchAt(items, s, k) <==> Denotes(rest, s[k..], false)
        {
          ItemsMean(rest, s, k);
        }
        StarMeans(p, s, i);
      } else if i < |s| {
        ItemsMean(rest, s, i + 1);
        assert s[i..][1..] == s[i + 1..];
      }
    }
  }

  /** The same, by positions in the subject. */
  lemma DenotesStarFrom(p: string, s: string, i: nat)
    requires p != "" && p[0] == '*' && i <= |s|
    ensures Denotes(p, s[i..], false)
            <==> exists k :: i <= k <= |s| && Absorbs(ItemOf(p).atom, s[i..k]) && Denotes(Piece(p).1, s[k..], false)
  {
    var a, rest, t := ItemOf(p).atom, Piece(p).1, s[i..];
    if k :| i <= k <= |s| && Absorbs(a, s[i..k]) && Denotes(rest, s[k..], false) {
      assert t[..k - i] == s[i..k] && t[k - i..] == s[k..];
    }
    if k :| 0 <= k <= |t| && Absorbs(a, t[..k]) && Denotes(rest, t[k..], false) {
      assert t[..k] == s[i..i + k] && t[k..] == s[i + k..];
    }
  }

  lemma StarMeans(p: string, s: string, i: nat)
    requires p != "" && p[0] == '*' && i <= |s|
    requires forall k | i <= k <= |s| :: MatchAt(Items(Piece(p).1), s, k) <==> Denotes(Piece(p).1, s[k..], false)
    ensures MatchAt(Items(p), s, i) <==> Denotes(p, s[i..], false)
  {
    ManyMeans(ItemOf(p).atom, Items(Piece(p).1), s, i);
    DenotesStarFrom(p, s, i);
  }

  /** Compiling preserves meaning: the text reads back, and accepts exactly what the glob denotes. */
  lemma CompilePreserves(p: string)
    ensures Parse("^" + Body(p) + "$").Some?
    ensures forall s :: Test(Parse("^" + Body(p) + "$").value, s) <==> Denotes(p, s, false)
  {
    var text := "^" + Body(p) + "$";
    BodyParses(p);
    assert text[1..] == Body(p) + "$";
    var all := [Start] + Items(p);
    assert all[1..] == Items(p);
    forall s
      ensures Test(all, s) <==> Denotes(p, s, false)
    {
      ItemsMean(p, s, 0);
      assert s[0..] == s;
      assert MatchAt(all, s, 0) <==> Denotes(p, s, false);
      assert forall i | 0 < i <= |s| :: !MatchAt(all, s, i);
    }
  }

  // ---------------------------------------------------------------- line terminators

  lemma {:induction false} OneLineAgrees(p: string, t: string)
    requires OneLine(t)
    ensures Denotes(p, t, true) <==> Denotes(p, t, false)
    decreases |p|
  {
    if p != "" {
      forall k | 0 <= k <= |t|
        ensures Denotes(Piece(p).1, t[k..], true) <==> Denotes(Piece(p).1, t[k..], false)
      {
        OneLineAgrees(Piece(p).1, t[k..]);
      }
      assert forall k | 0 <= k <= |t| :: OneLine(t[..k]);
    }
  }

  /**
   "**" stands for any path, as the module says, exactly on subjects without line terminators: the
   compiled dot stops at them. Patterns without "**" are not affected.
   */
  lemma AnyPathUpToLines(t: string)
    ensures (forall p :: Denotes(p, t, true) <==> Denotes(p, t, false)) <==> OneLine(t)
  {
    if OneLine(t) {
      forall p
        ensures Denotes(p, t, true) <==> Denotes(p, t, false)
      {
        OneLineAgrees(p, t);
      }
    } else {
      assert AfterStars("**") == "";
      assert Denotes("", t[|t|..], true);
      assert Denotes("**", t, true);
      forall k | 0 <= k <= |t| && Denotes("", t[k..], false)
        ensures t[..k] == t
      {
      }
      assert !Denotes("**", t, false);
    }
  }

  lemma {:induction false} SingleStarsAgree(p: string, t: string)
    requires forall i | 0 <= i < |p| - 1 :: !(p[i] == '*' && p[i + 1] == '*')
    ensures Denotes(p, t, true) <==> Denotes(p, t, false)
    decreases |p|
  {
    if p != "" {
      forall k | 0 <= k <= |t|
        ensures Denotes(p[1..], t[k..], true) <==> Denotes(p[1..], t[k..], false)
      {
        SingleStarsAgree(p[1..], t[k..]);
      }
    }
  }

  // ---------------------------------------------------------------- what a pattern can match

  predicate NoWildcards(p: string) {
    forall i | 0 <= i < |p| :: p[i] != '*' && p[i] != '?'
  }

  predicate NoStars(p: string) {
    forall i | 0 <= i < |p| :: p[i] != '*'
  }

  /** A pattern without wildcards matches itself only, whatever regular expressions make of its characters. */
  lemma {:induction false} LiteralMatchesItself(p: string, t: string, across: bool)
    requires NoWildcards(p)
    ensures Denotes(p, t, across) <==> p == t
    decreases |p|
  {
    if p != "" && t != "" {
      LiteralMatchesItself(p[1..], t[1..], across);
      assert p == [p[0]] + p[1..] && t == [t[0]] + t[1..];
    }
  }

  /** A "?" is exactly one character and no slash. */
  lemma {:induction false} QuestionMarksCount(p: string, t: string, across: bool)
    requires NoStars(p)
    ensures Denotes(p, t, across)
       <==> |p| == |t| && forall i | 0 <= i < |p| :: if p[i] == '?' then t[i] != '/' else t[i] == p[i]
    decreases |p|
  {
    if p != "" && t != "" {
      QuestionMarksCount(p[1..], t[1..], across);
      assert p == [p[0]] + p[1..] && t == [t[0]] + t[1..];
    }
  }

  function Slashes(s: string): nat {
    if s == "" then 0 else (if s[0] == '/' then 1 else 0) + Slashes(s[1..])
  }

  lemma {:induction false} SlashesAdd(a: string, b: string)
    ensures Slashes(a + b) == Slashes(a) + Slashes(b)
    decreases |a|
  {
    if a == "" {
      assert a + b == b;
    } else {
      SlashesAdd(a[1..], b);
      assert (a + b)[1..] == a[1..] + b;
    }
  }

  lemma {:induction false} NoSlashes(s: string)
    requires InSegment(s)
    ensures Slashes(s) == 0
  {
    if s != "" {
      NoSlashes(s[1..]);
    }
  }

  /** Without "**" a pattern matches only paths as deep as itself: no other wildcard stands for a slash. */
  lemma {:induction false} DepthIsKept(p: string, t: string, across: bool)
    requires forall i | 0 <= i < |p| - 1 :: !(p[i] == '*' && p[i + 1] == '*')
    requires Denotes(p, t, across)
    ensures Slashes(p) == Slashes(t)
    decreases |p|
  {
    if p != "" {
      if p[0] == '*' {
        var k :| 0 <= k <= |t| && InSegment(t[..k]) && Denotes(p[1..], t[k..], across);
        DepthIsKept(p[1..], t[k..], across);
        NoSlashes(t[..k]);
        SlashesAdd(t[..k], t[k..]);
        assert t == t[..k] + t[k..];
      } else {
        DepthIsKept(p[1..], t[1..], across);
      }
    }
  }

  /** A "*" stands for any part of a segment, the empty one included. */
  lemma StarStandsForSegment(p: string, part: string, t: string, across: bool)
    requires InSegment(part) && Denotes(p, t, across) && (p == "" || p[0] != '*')
    ensures Denotes("*" + p, part + t, across)
  {
    assert ("*" + p)[1..] == p && (part + t)[..|part|] == part && (part + t)[|part|..] == t;
  }

  /**
   A leading pair of stars stands for any text on one line, slashes and the empty text included; a slash behind them
   is part of them.
   */
  lemma DeepMatch(p: string, directories: string, t: string, across: bool)
    requires OneLine(directories) && Denotes(p, t, across)
    ensures Denotes("**/" + p, directories + t, across)
    ensures p == "" || p[0] != '/' ==> Denotes("**" + p, directories + t, across)
  {
    assert AfterStars("**/" + p) == p;
    assert p == "" || p[0] != '/' ==> AfterStars("**" + p) == p;
    assert (directories + t)[..|directories|] == directories && (directories + t)[|directories|..] == t;
  }
}
