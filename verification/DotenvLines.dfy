/** The scans of src/utils/dotenv.ts, line by line: stripping and matching a text is doing it to its lines. */
module DotenvLines {
  import opened JsText
  import opened Options
  import opened Dotenv

  /** No equals sign and no white space, as in the name of an environment variable. */
  predicate PlainKey(key: string) {
    forall i | 0 <= i < |key| :: key[i] != '=' && !IsSpace(key[i])
  }

  // ---------------------------------------------------------------- one line

  /** The rest of a text after its first line. */
  predicate EndsLine(rest: string) {
    rest == "" || IsLineTerminator(rest[0])
  }

  predicate Starts(line: string, key: string) {
    key + "=" <= line
  }

  predicate Assigns(line: string, key: string) {
    Assigned(line, key, Indent(line)).Some?
  }

  lemma {:induction false} LineOf(line: string, rest: string)
    requires OneLine(line) && EndsLine(rest)
    ensures LineLen(line + rest) == |line|
  {
    if line == "" {
      assert line + rest == rest;
    } else {
      LineOf(line[1..], rest);
      assert (line + rest)[1..] == line[1..] + rest;
    }
  }

  lemma {:induction false} IndentOf(line: string, rest: string)
    requires EndsLine(rest)
    ensures Indent(line + rest) == Indent(line)
  {
    if line == "" {
      assert line + rest == rest;
    } else {
      IndentOf(line[1..], rest);
      assert (line + rest)[1..] == line[1..] + rest;
    }
  }

  lemma {:induction false} PrefixOf(word: string, line: string, rest: string)
    requires rest != "" ==> rest[0] !in word
    ensures word <= line + rest <==> word <= line
  {
    if word != "" && line != "" {
      PrefixOf(word[1..], line[1..], rest);
      assert line + rest == [line[0]] + (line[1..] + rest);
      assert word == [word[0]] + word[1..] && line == [line[0]] + line[1..];
    } else if word != "" {
      assert line + rest == rest;
      assert rest != "" ==> word[0] != rest[0];
    }
  }

  lemma EqualsAfterOf(line: string, rest: string, key: string, i: nat)
    requires PlainKey(key) && EndsLine(rest) && i <= |line|
    ensures EqualsAfter(line + rest, key, i) == EqualsAfter(line, key, i)
  {
    var s := line + rest;
    assert s[i..] == line[i..] + rest;
    PrefixOf(key, line[i..], rest);
    if key <= line[i..] {
      assert s[i + |key|..] == line[i + |key|..] + rest;
      IndentOf(line[i + |key|..], rest);
    }
  }

  lemma {:induction false} AssignedOf(line: string, rest: string, key: string, indent: nat)
    requires PlainKey(key) && EndsLine(rest) && indent <= |line|
    ensures Assigned(line + rest, key, indent) == Assigned(line, key, indent)
    decreases indent
  {
    EqualsAfterOf(line, rest, key, indent);
    if indent > 0 {
      AssignedOf(line, rest, key, indent - 1);
    }
  }

  lemma LineFrom(line: string, rest: string, i: nat)
    requires OneLine(line) && EndsLine(rest) && i <= |line|
    ensures LineLen((line + rest)[i..]) == |line| - i
  {
    assert (line + rest)[i..] == line[i..] + rest;
    LineOf(line[i..], rest);
  }

  lemma AssignedLine(line: string, rest: string, key: string)
    requires PlainKey(key) && OneLine(line) && EndsLine(rest)
    ensures var s, q := line + rest, Assigned(line, key, Indent(line));
            && Assigned(s, key, Indent(s)) == q
            && (q.Some? ==> q.value + LineLen(s[q.value..]) == |line|)
  {
    var q := Assigned(line, key, Indent(line));
    IndentOf(line, rest);
    AssignedOf(line, rest, key, Indent(line));
    if q.Some? {
      LineFrom(line, rest, q.value);
    }
  }

  /** A line that starts with "KEY=" assigns KEY, and no other plain key. */
  lemma StartsAssigns(line: string, key: string, other: string)
    requires PlainKey(key) && PlainKey(other) && Starts(line, key)
    ensures Assigns(line, other) <==> other == key
  {
    assert line[|key|] == '=';
    assert forall i | 0 <= i < |key| :: line[i] == key[i];
    assert Indent(line) == 0;
    assert line[0..] == line;
    assert |other| > |key| ==> other[|key|] != line[|key|];
    if |other| <= |key| && other <= line {
      assert other == key[..|other|];
      assert |other| < |key| ==> line[|other|..][0] == key[|other|];
      assert |other| == |key| ==> line[|other|..][0] == '=' && other == key;
    }
  }

  // ---------------------------------------------------------------- texts line by line

  /** A text as its lines: each but the last with the terminator that ends it. */
  datatype Text = Last(line: string) | More(line: string, end: char, rest: Text)

  predicate Lined(t: Text) {
    OneLine(t.line) && (t.More? ==> IsLineTerminator(t.end) && Lined(t.rest))
  }

  function Flat(t: Text): string {
    if t.Last? then t.line else t.line + ([t.end] + Flat(t.rest))
  }

  function Lines(s: string): (t: Text)
    ensures Lined(t)
    decreases |s|
  {
    var e := LineLen(s);
    if e == |s| then Last(s) else More(s[..e], s[e], Lines(s[e + 1..]))
  }

  lemma {:induction false} FlatLines(s: string)
    ensures Flat(Lines(s)) == s
    decreases |s|
  {
    var e := LineLen(s);
    if e < |s| {
      FlatLines(s[e + 1..]);
      assert s == s[..e] + ([s[e]] + s[e + 1..]);
    }
  }

  function StripLines(t: Text, key: string): Text {
    if t.Last? then (if Assigns(t.line, key) then Last("") else t)
    else if !Assigns(t.line, key) then More(t.line, t.end, StripLines(t.rest, key))
    else if t.end == '\r' && t.rest.More? && t.rest.line == "" && t.rest.end == '\n' then StripLines(t.rest.rest, key)
    else if t.end == '\n' then StripLines(t.rest, key)
    else More("", t.end, StripLines(t.rest, key))
  }

  function MatchLines(t: Text, key: string): Option<string> {
    if Starts(t.line, key) then Some(t.line[|key| + 1..])
    else if t.Last? then None
    else MatchLines(t.rest, key)
  }

  lemma CutAtHit(line: string, rest: string)
    requires line != ""
    ensures CutAt(line + rest, true, |line|)
            == if |rest| > 1 && rest[0] == '\r' && rest[1] == '\n' then ("", |line| + 2)
               else if rest != "" && rest[0] == '\n' then ("", |line| + 1)
               else if rest == "" then ("", |line|) else ([rest[0]], |line| + 1)
  {
    var s := line + rest;
    assert rest != "" ==> s[|line|] == rest[0];
    assert |rest| > 1 ==> s[|line| + 1] == rest[1];
    assert s[|line|..|line|] == "";
    assert rest != "" ==> s[|line|..|line| + 1] == [rest[0]];
  }

  lemma CutHit(line: string, rest: string, key: string)
    requires PlainKey(key) && OneLine(line) && EndsLine(rest) && Assigns(line, key)
    ensures line != ""
    ensures Cut(line + rest, key)
            == if |rest| > 1 && rest[0] == '\r' && rest[1] == '\n' then ("", |line| + 2)
               else if rest != "" && rest[0] == '\n' then ("", |line| + 1)
               else if rest == "" then ("", |line|) else ([rest[0]], |line| + 1)
  {
    AssignedLine(line, rest, key);
    CutAtHit(line, rest);
  }

  lemma CutMiss(line: string, rest: string, key: string)
    requires PlainKey(key) && OneLine(line) && EndsLine(rest) && !Assigns(line, key) && line + rest != ""
    ensures Cut(line + rest, key) == if rest == "" then (line, |line|) else (line + [rest[0]], |line| + 1)
  {
    var s := line + rest;
    AssignedLine(line, rest, key);
    LineOf(line, rest);
    assert s[..|line|] == line;
    assert rest != "" ==> s[..|line| + 1] == line + [rest[0]];
  }

  lemma StripOnce(s: string, key: string, kept: string, next: nat, tail: string)
    requires s != "" && next <= |s| && Cut(s, key) == (kept, next) && s[next..] == tail
    ensures Strip(s, key) == kept + Strip(tail, key)
  {
  }

  lemma LastStripped(line: string, key: string)
    requires PlainKey(key) && OneLine(line)
    ensures Strip(line, key) == if Assigns(line, key) then "" else line
  {
    assert line + "" == line;
    if line != "" {
      if Assigns(line, key) {
        CutHit(line, "", key);
        StripOnce(line, key, "", |line|, "");
      } else {
        CutMiss(line, "", key);
        StripOnce(line, key, line, |line|, "");
      }
    }
  }

  lemma NewlineFirst(t: Text)
    requires Lined(t)
    ensures Flat(t) != "" && Flat(t)[0] == '\n' <==> t.More? && t.line == "" && t.end == '\n'
    ensures t.More? && t.line == "" ==> Flat(t) == [t.end] + Flat(t.rest)
  {
    assert t.line != "" ==> Flat(t)[0] == t.line[0];
  }

  lemma Dropped(line: string, rest: string, n: nat)
    requires n <= |rest|
    ensures (line + rest)[|line| + n..] == rest[n..]
  {
  }

  lemma MissStripped(line: string, end: char, tail: string, key: string)
    requires PlainKey(key) && OneLine(line) && IsLineTerminator(end) && !Assigns(line, key)
    ensures Strip(line + ([end] + tail), key) == line + ([end] + Strip(tail, key))
  {
    var rest, after := [end] + tail, Strip(tail, key);
    CutMiss(line, rest, key);
    Dropped(line, rest, 1);
    StripOnce(line + rest, key, line + [end], |line| + 1, tail);
    Associate(line, [end], after);
  }

  lemma HitCrlf(line: string, tail: string, key: string)
    requires PlainKey(key) && OneLine(line) && Assigns(line, key) && tail != "" && tail[0] == '\n'
    ensures Strip(line + ("\r" + tail), key) == Strip(tail[1..], key)
  {
    var rest := "\r" + tail;
    assert rest[0] == '\r' && rest[1] == tail[0] && rest[2..] == tail[1..];
    CutHit(line, rest, key);
    Dropped(line, rest, 2);
    StripOnce(line + rest, key, "", |line| + 2, tail[1..]);
  }

  lemma HitStripped(line: string, end: char, tail: string, key: string)
    requires PlainKey(key) && OneLine(line) && IsLineTerminator(end) && Assigns(line, key)
    requires !(end == '\r' && tail != "" && tail[0] == '\n')
    ensures Strip(line + ([end] + tail), key) == if end == '\n' then Strip(tail, key) else [end] + Strip(tail, key)
  {
    var rest := [end] + tail;
    CutHit(line, rest, key);
    Dropped(line, rest, 1);
    StripOnce(line + rest, key, if end == '\n' then "" else [end], |line| + 1, tail);
  }

  lemma NoLine(end: char, rest: Text)
    ensures Flat(More("", end, rest)) == [end] + Flat(rest)
  {
  }

  lemma {:induction false} StripByLines(t: Text, key: string)
    requires PlainKey(key) && Lined(t)
    ensures Strip(Flat(t), key) == Flat(StripLines(t, key))
    decreases t
  {
    if t.Last? {
      LastStripped(t.line, key);
    } else {
      StripByLines(t.rest, key);
      var rest := StripLines(t.rest, key);
      if !Assigns(t.line, key) {
        MissStripped(t.line, t.end, Flat(t.rest), key);
        assert StripLines(t, key) == More(t.line, t.end, rest);
      } else {
        NewlineFirst(t.rest);
        NoLine(t.end, rest);
        if t.end == '\r' && t.rest.More? && t.rest.line == "" && t.rest.end == '\n' {
          HitCrlf(t.line, Flat(t.rest), key);
          StripByLines(t.rest.rest, key);
        } else {
          HitStripped(t.line, t.end, Flat(t.rest), key);
        }
      }
    }
  }

  lemma {:induction false} MatchByLines(t: Text, key: string)
    requires PlainKey(key) && Lined(t)
    ensures FirstMatch(Flat(t), key) == MatchLines(t, key)
  {
    var line, s := t.line, Flat(t);
    var rest := if t.Last? then "" else [t.end] + Flat(t.rest);
    assert s == line + rest;
    LineOf(line, rest);
    PrefixOf(key + "=", line, rest);
    if Starts(line, key) {
      assert s[|key| + 1..] == line[|key| + 1..] + rest;
      LineOf(line[|key| + 1..], rest);
    } else if t.More? {
      MatchByLines(t.rest, key);
      assert s[|line| + 1..] == Flat(t.rest);
    }
  }

  lemma {:induction false} LinesFlat(t: Text)
    requires Lined(t)
    ensures Lines(Flat(t)) == t
  {
    var s := Flat(t);
    if t.Last? {
      assert t.line + "" == t.line;
      LineOf(t.line, "");
    } else {
      LineOf(t.line, [t.end] + Flat(t.rest));
      assert s[..|t.line|] == t.line && s[|t.line| + 1..] == Flat(t.rest);
      LinesFlat(t.rest);
    }
  }

  // ---------------------------------------------------------------- stripping and reading

  lemma {:induction false} StripLinesReads(t: Text, stripped: string, key: string)
    requires PlainKey(stripped) && PlainKey(key) && Lined(t)
    ensures Lined(StripLines(t, stripped))
    ensures MatchLines(StripLines(t, stripped), key) == if stripped == key then None else MatchLines(t, key)
    decreases t
  {
    if Starts(t.line, key) {
      StartsAssigns(t.line, key, stripped);
    }
    if t.More? {
      StripLinesReads(t.rest, stripped, key);
      if t.rest.More? {
        StripLinesReads(t.rest.rest, stripped, key);
      }
    }
  }

  /** Stripping one key removes that key and leaves every other plain key as it was. */
  lemma StripReads(s: string, stripped: string, key: string)
    requires PlainKey(stripped) && PlainKey(key)
    ensures FirstMatch(Strip(s, stripped), key) == if stripped == key then None else FirstMatch(s, key)
  {
    FlatLines(s);
    StripByLines(Lines(s), stripped);
    StripLinesReads(Lines(s), stripped, key);
    MatchByLines(Lines(s), key);
    MatchByLines(StripLines(Lines(s), stripped), key);
  }

  predicate CleanLines(t: Text, key: string) {
    !Assigns(t.line, key) && (t.More? ==> CleanLines(t.rest, key))
  }

  /** No line assigns the key. */
  predicate Clean(s: string, key: string) {
    CleanLines(Lines(s), key)
  }

  lemma {:induction false} StripLinesCleans(t: Text, stripped: string, key: string)
    requires stripped == key || CleanLines(t, key)
    ensures CleanLines(StripLines(t, stripped), key)
    decreases t
  {
    if t.More? {
      StripLinesCleans(t.rest, stripped, key);
      if t.rest.More? {
        StripLinesCleans(t.rest.rest, stripped, key);
      }
    }
  }

  /** A stripped key is gone, and stripping others does not bring it back. */
  lemma StripCleans(s: string, stripped: string, key: string)
    requires PlainKey(stripped) && PlainKey(key) && (stripped == key || Clean(s, key))
    ensures Clean(Strip(s, stripped), key)
  {
    FlatLines(s);
    StripByLines(Lines(s), stripped);
    StripLinesReads(Lines(s), stripped, key);
    StripLinesCleans(Lines(s), stripped, key);
    LinesFlat(StripLines(Lines(s), stripped));
  }

  // ---------------------------------------------------------------- one text above another

  function Above(b: Text, c: Text): Text {
    if b.Last? then More(b.line, '\n', c) else More(b.line, b.end, Above(b.rest, c))
  }

  lemma {:induction false} FlatAbove(b: Text, c: Text)
    requires Lined(b) && Lined(c)
    ensures Lined(Above(b, c)) && Flat(Above(b, c)) == Flat(b) + ("\n" + Flat(c))
  {
    if b.More? {
      var below := "\n" + Flat(c);
      FlatAbove(b.rest, c);
      Associate([b.end], Flat(b.rest), below);
      Associate(b.line, [b.end] + Flat(b.rest), below);
    }
  }

  lemma {:induction false} AboveLines(b: Text, c: Text, key: string)
    ensures MatchLines(Above(b, c), key) == if MatchLines(b, key).Some? then MatchLines(b, key) else MatchLines(c, key)
    ensures CleanLines(b, key) ==> StripLines(Above(b, c), key) == Above(b, StripLines(c, key))
  {
    if b.More? {
      AboveLines(b.rest, c, key);
    }
  }

  /** The upper text is searched first. */
  lemma MatchAfter(b: string, c: string, key: string)
    requires PlainKey(key)
    ensures FirstMatch(b + ("\n" + c), key) == if FirstMatch(b, key).Some? then FirstMatch(b, key) else FirstMatch(c, key)
  {
    FlatLines(b);
    FlatLines(c);
    FlatAbove(Lines(b), Lines(c));
    AboveLines(Lines(b), Lines(c), key);
    MatchByLines(Lines(b), key);
    MatchByLines(Lines(c), key);
    MatchByLines(Above(Lines(b), Lines(c)), key);
  }

  /** A clean upper text passes through. */
  lemma StripAfter(b: string, c: string, key: string)
    requires PlainKey(key) && Clean(b, key)
    ensures Strip(b + ("\n" + c), key) == b + ("\n" + Strip(c, key))
  {
    FlatLines(b);
    FlatLines(c);
    FlatAbove(Lines(b), Lines(c));
    AboveLines(Lines(b), Lines(c), key);
    StripByLines(Above(Lines(b), Lines(c)), key);
    StripByLines(Lines(c), key);
    StripLinesReads(Lines(c), key, key);
    FlatAbove(Lines(b), StripLines(Lines(c), key));
  }

  // ---------------------------------------------------------------- trailing white space

  /** The texts end to end: the last line of one runs into the first of the other. */
  function Joined(t: Text, w: Text): Text {
    if t.More? then More(t.line, t.end, Joined(t.rest, w))
    else if w.Last? then Last(t.line + w.line) else More(t.line + w.line, w.end, w.rest)
  }

  lemma {:induction false} FlatJoined(t: Text, w: Text)
    requires Lined(t) && Lined(w)
    ensures Lined(Joined(t, w)) && Flat(Joined(t, w)) == Flat(t) + Flat(w)
  {
    if t.More? {
      FlatJoined(t.rest, w);
      Associate([t.end], Flat(t.rest), Flat(w));
      Associate(t.line, [t.end] + Flat(t.rest), Flat(w));
    } else if w.More? {
      Associate(t.line, w.line, [w.end] + Flat(w.rest));
    }
  }

  predicate BlankLines(w: Text) {
    Blank(w.line) && (w.More? ==> BlankLines(w.rest))
  }

  lemma {:induction false} LinesOfBlank(s: string)
    requires Blank(s)
    ensures BlankLines(Lines(s))
    decreases |s|
  {
    if LineLen(s) < |s| {
      LinesOfBlank(s[LineLen(s) + 1..]);
    }
  }

  lemma {:induction false} BlankUnmatched(w: Text, key: string)
    requires PlainKey(key) && BlankLines(w)
    ensures MatchLines(w, key) == None
  {
    PrefixOf(key + "=", "", w.line);
    assert "" + w.line == w.line;
    if w.More? {
      BlankUnmatched(w.rest, key);
    }
  }

  predicate SameTrimmed(a: Option<string>, b: Option<string>) {
    a.Some? == b.Some? && (a.Some? ==> Trim(a.value) == Trim(b.value))
  }

  lemma {:induction false} TailLines(t: Text, w: Text, key: string)
    requires PlainKey(key) && BlankLines(w)
    ensures SameTrimmed(MatchLines(Joined(t, w), key), MatchLines(t, key))
    ensures CleanLines(Joined(t, w), key) ==> CleanLines(t, key)
  {
    if t.More? {
      TailLines(t.rest, w, key);
    } else {
      PrefixOf(key + "=", t.line, w.line);
      BlankUnmatched(w, key);
      if Starts(t.line, key) {
        assert (t.line + w.line)[|key| + 1..] == t.line[|key| + 1..] + w.line;
        TrimEndTail(t.line[|key| + 1..], w.line);
      }
      if Assigns(t.line, key) {
        AssignsExtends(t.line, w.line, key);
      }
    }
  }

  /** White space at the end of the file changes nothing that is read, and no key is hidden in it. */
  lemma TailUnread(s: string, w: string, key: string)
    requires PlainKey(key) && Blank(w)
    ensures SameTrimmed(FirstMatch(s + w, key), FirstMatch(s, key))
    ensures Clean(s + w, key) ==> Clean(s, key)
  {
    FlatLines(s);
    FlatLines(w);
    LinesOfBlank(w);
    FlatJoined(Lines(s), Lines(w));
    LinesFlat(Joined(Lines(s), Lines(w)));
    TailLines(Lines(s), Lines(w), key);
    MatchByLines(Lines(s), key);
    MatchByLines(Joined(Lines(s), Lines(w)), key);
  }

  lemma {:induction false} IndentExtends(line: string, more: string)
    requires Indent(line) < |line|
    ensures Indent(line + more) == Indent(line)
  {
    assert (line + more)[1..] == line[1..] + more;
    if line[0] == ' ' || line[0] == '\t' {
      IndentExtends(line[1..], more);
    }
  }

  lemma EqualsExtends(line: string, more: string, key: string, i: nat)
    requires i <= |line| && EqualsAfter(line, key, i).Some?
    ensures EqualsAfter(line + more, key, i).Some?
  {
    var s, m := line + more, i + |key|;
    assert s[i..] == line[i..] + more;
    assert s[m..] == line[m..] + more;
    IndentExtends(line[m..], more);
  }

  lemma {:induction false} AssignedExtends(line: string, more: string, key: string, indent: nat)
    requires indent <= |line| && Assigned(line, key, indent).Some?
    ensures Assigned(line + more, key, indent).Some?
    ensures exists j :: 0 <= j < |line| && line[j] == '='
    decreases indent
  {
    if EqualsAfter(line, key, indent).Some? {
      EqualsExtends(line, more, key, indent);
      assert line[EqualsAfter(line, key, indent).value - 1] == '=';
    } else {
      AssignedExtends(line, more, key, indent - 1);
    }
  }

  lemma AssignsExtends(line: string, more: string, key: string)
    requires Assigns(line, key)
    ensures Assigns(line + more, key)
  {
    AssignedExtends(line, more, key, Indent(line));
    IndentExtends(line, more);
  }
}
