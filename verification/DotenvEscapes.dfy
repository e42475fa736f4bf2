/**
 Which older rows the multi-key writer of src/utils/dotenv.ts leaves for the loader. The loader trims all
 white space and splits at newlines only; the writer's patterns skip spaces and tabs and see a line behind every
 JavaScript line terminator. What falls between the two is stated on the lines of the file as it was.
 */
module DotenvEscapes {
  import opened JsText
  import opened Options
  import opened Dotenv
  import opened DotenvLines
  import opened DotenvTheorems
  import opened DotenvLoader

  // ---------------------------------------------------------------- which rows the loader reads

  lemma {:induction false} TrimEndFirst(c: char, s: string)
    ensures TrimEnd([c] + s) == if TrimEnd(s) == "" && IsSpace(c) then "" else [c] + TrimEnd(s)
    decreases |s|
  {
    var all := [c] + s;
    if s == "" {
      assert all == [c] && all[..0] == "";
    } else {
      var front := s[..|s| - 1];
      assert all[|s|] == s[|s| - 1];
      assert all[..|s|] == [c] + front;
      if IsSpace(s[|s| - 1]) {
        TrimEndFirst(c, front);
        assert TrimEnd(all) == TrimEnd([c] + front);
      } else {
        assert TrimEnd(all) == all;
      }
    }
  }

  lemma TrimSkips(s: string)
    requires s != "" && IsSpace(s[0])
    ensures Trim(s) == Trim(s[1..])
  {
    TrimEndFirst(s[0], s[1..]);
    assert s == [s[0]] + s[1..];
    assert ([s[0]] + TrimEnd(s[1..]))[1..] == TrimEnd(s[1..]);
  }

  lemma TrimWord(c: char, rest: string)
    requires !IsSpace(c)
    ensures Trim([c] + rest) == [c] + TrimEnd(rest)
  {
    TrimEndFirst(c, rest);
    TrimStartKeeps([c] + TrimEnd(rest));
  }

  lemma EntryStarts(trimmed: string, key: string)
    requires Assigning(EntryOf(trimmed), key).Some?
    ensures key + "=" <= trimmed
  {
    var eq := IndexOf(trimmed, '=');
    assert trimmed[..eq] == key && trimmed[..eq + 1] == key + "=";
  }

  lemma PrefixPush(c: char, a: string, b: string)
    requires a <= b
    ensures [c] + a <= [c] + b
  {
  }

  lemma PrefixChain(a: string, b: string, c: string)
    requires a <= b <= c
    ensures a <= c
  {
  }

  /** A row that is loaded for a key starts with it, once the white space in front is gone. */
  lemma LoadedStarts(row: string, key: string)
    requires row != "" && !IsSpace(row[0]) && Assigning(Entry(row), key).Some?
    ensures key + "=" <= row
  {
    var c, rest := row[0], row[1..];
    assert row == [c] + rest;
    TrimWord(c, rest);
    EntryStarts([c] + TrimEnd(rest), key);
    PrefixPush(c, TrimEnd(rest), rest);
    PrefixChain(key + "=", [c] + TrimEnd(rest), [c] + rest);
  }

  lemma {:induction false} TrimEndBehind(a: string, tail: string)
    requires a != "" && !IsSpace(a[|a| - 1])
    ensures TrimEnd(a + tail) == a + TrimEnd(tail)
    decreases |tail|
  {
    if tail == "" {
      assert a + tail == a;
    } else {
      var n := |tail| - 1;
      assert (a + tail)[..|a| + n] == a + tail[..n];
      if IsSpace(tail[n]) {
        TrimEndBehind(a, tail[..n]);
      }
    }
  }

  lemma EntryOfKeyed(key: string, tail: string)
    requires Loadable(key)
    ensures Assigning(Entry(key + "=" + tail), key).Some?
  {
    var front := key + "=";
    TrimEndBehind(front, tail);
    assert front[0] == key[0] && (front + TrimEnd(tail))[0] == front[0];
    TrimStartKeeps(front + TrimEnd(tail));
    EntryOfLine(key, TrimEnd(tail));
  }

  /** And one that starts with it is loaded. */
  lemma StartsLoaded(row: string, key: string)
    requires Loadable(key) && key + "=" <= row
    ensures Assigning(Entry(row), key).Some?
  {
    EntryOfKeyed(key, row[|key| + 1..]);
    assert row == key + "=" + row[|key| + 1..];
  }

  /** Exactly the rows that are loaded for a key. */
  lemma {:induction false} RowLoaded(row: string, key: string)
    requires Loadable(key)
    ensures Assigning(Entry(row), key).Some? <==> key + "=" <= TrimStart(row)
    decreases |row|
  {
    if row == "" {
      assert Trim("") == "";
    } else if IsSpace(row[0]) {
      TrimSkips(row);
      RowLoaded(row[1..], key);
    } else if key + "=" <= row {
      StartsLoaded(row, key);
    } else if Assigning(Entry(row), key).Some? {
      LoadedStarts(row, key);
    }
  }

  function Newline(s: string): (k: nat)
    ensures k <= |s| && '\n' !in s[..k] && (k < |s| ==> s[k] == '\n')
  {
    if s == "" || s[0] == '\n' then 0 else 1 + Newline(s[1..])
  }

  /** What follows the first row. */
  function Rest(s: string): string {
    if Newline(s) == |s| then "" else s[Newline(s) + 1..]
  }

  lemma OneRowLoaded(row: string, key: string)
    requires Loadable(key) && '\n' !in row
    ensures FirstRow(row, key).Some? <==> key + "=" <= TrimStart(row)
  {
    RowLoaded(row, key);
    OneEntry(row, key);
  }

  lemma RowAbove(row: string, rest: string, key: string)
    requires Loadable(key) && '\n' !in row
    ensures FirstRow(row + ("\n" + rest), key).Some? <==> key + "=" <= TrimStart(row) || FirstRow(rest, key).Some?
  {
    OneRowLoaded(row, key);
    TextsAfter(row, rest, key);
  }

  lemma RowByRow(s: string, key: string)
    requires Loadable(key)
    ensures FirstRow(s, key).Some? <==> key + "=" <= TrimStart(s[..Newline(s)]) || FirstRow(Rest(s), key).Some?
  {
    var k := Newline(s);
    NothingRow(key);
    if k == |s| {
      assert s[..k] == s;
      OneRowLoaded(s, key);
    } else {
      assert s == s[..k] + ("\n" + s[k + 1..]);
      RowAbove(s[..k], s[k + 1..], key);
    }
  }

  // ---------------------------------------------------------------- what escapes the stripping

  /** Some update's pattern matches the line. */
  predicate Hit(line: string, updates: seq<Update>)
    decreases |updates|
  {
    updates != [] && (Assigns(line, updates[0].key) || Hit(line, updates[1..]))
  }

  /** The line's carriage return and newline count as one end. */
  predicate Crlf(t: Text) {
    t.More? && t.end == '\r' && t.rest.More? && t.rest.line == "" && t.rest.end == '\n'
  }

  /**
   A line of the file that no pattern matches starts with the key behind white space, and on its row as the
   stripping leaves it nothing but white space comes before. open says that this is so for the part of the row
   already read; what a pattern matches goes, with the newline that ends it.
   */
  predicate Escapes(t: Text, updates: seq<Update>, key: string, open: bool)
    decreases t
  {
    if Hit(t.line, updates) then
      t.More? && Escapes(if Crlf(t) then t.rest.rest else t.rest, updates, key, open)
    else
      || (open && key + "=" <= TrimStart(t.line))
      || (t.More? && Escapes(t.rest, updates, key, t.end == '\n' || (open && Blank(t.line))))
  }

  // ---------------------------------------------------------------- rows of a text as its lines

  lemma {:induction false} TrimStartBlank(w: string, s: string)
    requires Blank(w)
    ensures TrimStart(w + s) == TrimStart(s)
    decreases |w|
  {
    if w == "" {
      assert w + s == s;
    } else {
      assert (w + s)[1..] == w[1..] + s;
      TrimStartBlank(w[1..], s);
    }
  }

  lemma {:induction false} TrimStartBefore(s: string, more: string)
    requires !Blank(s)
    ensures TrimStart(s + more) == TrimStart(s) + more
    decreases |s|
  {
    if IsSpace(s[0]) {
      assert (s + more)[1..] == s[1..] + more;
      TrimStartBefore(s[1..], more);
    } else {
      assert TrimStart(s) == s;
    }
  }

  lemma SpaceNotInKey(key: string, w: string)
    requires PlainKey(key) && w != "" && IsSpace(w[0])
    ensures w[0] !in key + "="
  {
  }

  /** White space behind a text is not part of a key at its start. */
  lemma KeyBefore(start: string, more: string, key: string)
    requires PlainKey(key) && (more != "" ==> IsSpace(more[0]))
    ensures key + "=" <= start + more <==> key + "=" <= start
  {
    if more != "" {
      SpaceNotInKey(key, more);
    }
    PrefixOf(key + "=", start, more);
  }

  /** The first line of a row decides unless it is blank. */
  lemma FirstLineDecides(w: string, line: string, more: string, key: string)
    requires PlainKey(key) && Blank(w) && !Blank(line) && EndsLine(more)
    ensures key + "=" <= TrimStart(w + (line + more)) <==> key + "=" <= TrimStart(line)
  {
    TrimStartBlank(w, line + more);
    TrimStartBefore(line, more);
    KeyBefore(TrimStart(line), more, key);
  }

  lemma {:induction false} NewlineBehind(a: string, b: string)
    requires '\n' !in a
    ensures Newline(a + b) == |a| + Newline(b)
    decreases |a|
  {
    if a == "" {
      assert a + b == b;
    } else {
      assert (a + b)[1..] == a[1..] + b;
      NewlineBehind(a[1..], b);
    }
  }

  lemma NewlineAt(a: string, b: string)
    requires '\n' !in a
    ensures Newline(a + b) == |a| + Newline(b) && Rest(a + b) == Rest(b)
    ensures (a + b)[..Newline(a + b)] == a + b[..Newline(b)]
  {
    var n := Newline(b);
    NewlineBehind(a, b);
    assert (a + b)[..|a| + n] == a + b[..n];
    assert n < |b| ==> (a + b)[|a| + n + 1..] == b[n + 1..];
  }

  lemma BlankRow(w: string, key: string)
    requires Loadable(key) && Blank(w) && '\n' !in w
    ensures FirstRow(w, key) == None
  {
    TrimStartBlank(w, "");
    assert w + "" == w;
    RowLoaded(w, key);
    OneEntry(w, key);
  }

  /** The first row of a text: its first line, and more if that is ended by another terminator. */
  lemma FirstRowOf(t: Text)
    requires Lined(t)
    ensures var s := Flat(t);
            && t.line <= s[..Newline(s)] && EndsLine(s[..Newline(s)][|t.line|..])
            && Rest(s) == if t.Last? then "" else if t.end == '\n' then Flat(t.rest) else Rest(Flat(t.rest))
  {
    var line, s := t.line, Flat(t);
    if t.Last? {
      assert line + "" == line;
      NewlineAt(line, "");
    } else {
      var more := [t.end] + Flat(t.rest);
      NewlineAt(line, more);
      assert s[..Newline(s)][|line|..] == more[..Newline(more)];
      if t.end == '\n' {
        assert Newline(more) == 0 && more[1..] == Flat(t.rest);
      } else {
        NewlineAt([t.end], Flat(t.rest));
      }
    }
  }

  /** The rows behind the one that t's first line is on. */
  lemma {:induction false} ClosedRows(t: Text, key: string)
    requires Loadable(key) && Lined(t)
    ensures FirstRow(Rest(Flat(t)), key).Some? <==> Escapes(t, [], key, false)
    decreases t, 0
  {
    FirstRowOf(t);
    NothingRow(key);
    if t.More? {
      if t.end == '\n' {
        OpenRows("", t.rest, key);
        assert "" + Flat(t.rest) == Flat(t.rest);
      } else {
        ClosedRows(t.rest, key);
      }
    }
  }

  lemma EscapesOpen(t: Text, key: string, open: bool)
    ensures Escapes(t, [], key, open)
       <==> || (open && key + "=" <= TrimStart(t.line))
            || (t.More? && Escapes(t.rest, [], key, t.end == '\n' || (open && Blank(t.line))))
  {
  }

  lemma BlankNoKey(line: string, key: string)
    requires Blank(line)
    ensures !(key + "=" <= TrimStart(line))
  {
    TrimStartBlank(line, "");
    assert line + "" == line;
  }

  /** A blank first line that ends no row joins the blank start. */
  lemma BlankStart(w: string, t: Text, start: string)
    requires t.More? && t.end != '\n' && Lined(t) && Blank(w) && '\n' !in w && Blank(t.line)
    requires start == w + t.line + [t.end]
    ensures Blank(start) && '\n' !in start && w + Flat(t) == start + Flat(t.rest)
  {
    BlankJoin(w, t.line);
    BlankJoin(w + t.line, [t.end]);
    Associate(w, t.line, [t.end] + Flat(t.rest));
    Associate(w + t.line, [t.end], Flat(t.rest));
  }

  lemma BlankRowStart(w: string, t: Text, key: string)
    requires Loadable(key) && Lined(t) && Blank(w) && '\n' !in w && Blank(t.line)
    ensures FirstRow(w + t.line, key) == None
  {
    BlankJoin(w, t.line);
    BlankRow(w + t.line, key);
  }

  /** A text behind a blank start of its first row. */
  lemma {:induction false} OpenRows(w: string, t: Text, key: string)
    requires Loadable(key) && Lined(t) && Blank(w) && '\n' !in w
    ensures FirstRow(w + Flat(t), key).Some? <==> Escapes(t, [], key, true)
    decreases t, 1
  {
    EscapesOpen(t, key, true);
    if !Blank(t.line) {
      EscapesOpen(t, key, false);
      ClosedRows(t, key);
      OpenRow(w, t, key);
    } else {
      BlankNoKey(t.line, key);
      BlankRowStart(w, t, key);
      if t.More? {
        if t.end == '\n' {
          OpenRows("", t.rest, key);
          BlankLine(w, t, key);
        } else {
          var start := w + t.line + [t.end];
          BlankStart(w, t, start);
          OpenRows(start, t.rest, key);
        }
      }
    }
  }

  lemma BlankLine(w: string, t: Text, key: string)
    requires t.More? && t.end == '\n' && FirstRow(w + t.line, key) == None
    ensures FirstRow(w + Flat(t), key).Some? == FirstRow("" + Flat(t.rest), key).Some?
  {
    assert w + Flat(t) == (w + t.line) + ("\n" + Flat(t.rest)) && "" + Flat(t.rest) == Flat(t.rest);
    TextsAfter(w + t.line, Flat(t.rest), key);
  }

  lemma RowDecides(w: string, line: string, row: string, key: string)
    requires PlainKey(key) && Blank(w) && !Blank(line) && line <= row && EndsLine(row[|line|..])
    ensures key + "=" <= TrimStart(w + row) <==> key + "=" <= TrimStart(line)
  {
    assert row == line + row[|line|..];
    FirstLineDecides(w, line, row[|line|..], key);
  }

  lemma OpenRow(w: string, t: Text, key: string)
    requires Loadable(key) && Lined(t) && Blank(w) && '\n' !in w && !Blank(t.line)
    ensures FirstRow(w + Flat(t), key).Some? <==> key + "=" <= TrimStart(t.line) || FirstRow(Rest(Flat(t)), key).Some?
  {
    var s := Flat(t);
    RowByRow(w + s, key);
    NewlineAt(w, s);
    FirstRowOf(t);
    RowDecides(w, t.line, s[..Newline(s)], key);
  }

  /** The loader reads the key from some row exactly when a line starts with it that is first on its row. */
  lemma RowsByLines(s: string, key: string)
    requires Loadable(key)
    ensures FirstRow(s, key).Some? <==> Escapes(Lines(s), [], key, true)
  {
    FlatLines(s);
    assert "" + s == s;
    OpenRows("", Lines(s), key);
  }

  lemma {:induction false} BlankEscapesNot(w: Text, key: string, open: bool)
    requires BlankLines(w)
    ensures !Escapes(w, [], key, open)
    decreases w
  {
    BlankNoKey(w.line, key);
    if w.More? {
      BlankEscapesNot(w.rest, key, w.end == '\n' || (open && Blank(w.line)));
    }
  }

  lemma BlankJoin(a: string, b: string)
    requires Blank(a) && Blank(b)
    ensures Blank(a + b)
  {
  }

  lemma BlankTailNoKey(line: string, w: string, key: string)
    requires PlainKey(key) && Blank(w)
    ensures key + "=" <= TrimStart(line + w) <==> key + "=" <= TrimStart(line)
  {
    if Blank(line) {
      BlankNoKey(line, key);
      BlankJoin(line, w);
      BlankNoKey(line + w, key);
    } else {
      TrimStartBefore(line, w);
      KeyBefore(TrimStart(line), w, key);
    }
  }

  lemma {:induction false} TailEscapes(t: Text, w: Text, key: string, open: bool)
    requires PlainKey(key) && BlankLines(w)
    ensures Escapes(Joined(t, w), [], key, open) == Escapes(t, [], key, open)
    decreases t
  {
    EscapesOpen(t, key, open);
    EscapesOpen(Joined(t, w), key, open);
    if t.More? {
      TailEscapes(t.rest, w, key, t.end == '\n' || (open && Blank(t.line)));
    } else {
      BlankTailNoKey(t.line, w.line, key);
      if w.More? {
        BlankEscapesNot(w.rest, key, w.end == '\n' || (open && Blank(t.line + w.line)));
      }
    }
  }

  /** White space at the end of the file loads nothing. */
  lemma TailNotLoaded(s: string, w: string, key: string)
    requires Loadable(key) && Blank(w)
    ensures FirstRow(s + w, key).Some? == FirstRow(s, key).Some?
  {
    FlatLines(s);
    FlatLines(w);
    LinesOfBlank(w);
    FlatJoined(Lines(s), Lines(w));
    LinesFlat(Joined(Lines(s), Lines(w)));
    TailEscapes(Lines(s), Lines(w), key, true);
    RowsByLines(s, key);
    RowsByLines(s + w, key);
  }

  // ---------------------------------------------------------------- stripping on the lines

  /** Carriage returns stand before newlines only. */
  predicate ReturnsPaired(t: Text)
    decreases t
  {
    t.More? ==> (t.end == '\r' ==> Crlf(t)) && ReturnsPaired(t.rest)
  }

  lemma NothingAssigned(key: string)
    ensures !Assigns("", key)
  {
  }

  lemma {:induction false} EmptyNotHit(updates: seq<Update>)
    ensures !Hit("", updates)
    decreases |updates|
  {
    if updates != [] {
      EmptyNotHit(updates[1..]);
    }
  }

  lemma {:induction false} StripPairs(t: Text, key: string)
    requires ReturnsPaired(t)
    ensures ReturnsPaired(StripLines(t, key))
    decreases t
  {
    NothingAssigned(key);
    if t.More? {
      StripPairs(t.rest, key);
      if Crlf(t) {
        StripPairs(t.rest.rest, key);
        assert StripLines(t.rest, key) == More("", '\n', StripLines(t.rest.rest, key));
      }
    }
  }

  /** What follows a matched line. */
  function Behind(t: Text): Text
    requires t.More?
  {
    if Crlf(t) then t.rest.rest else t.rest
  }

  lemma HitEscapes(t: Text, updates: seq<Update>, key: string, open: bool)
    requires Hit(t.line, updates)
    ensures Escapes(t, updates, key, open) == (t.More? && Escapes(Behind(t), updates, key, open))
  {
  }

  lemma MissEscapes(t: Text, updates: seq<Update>, key: string, open: bool)
    requires !Hit(t.line, updates)
    ensures Escapes(t, updates, key, open)
       <==> || (open && key + "=" <= TrimStart(t.line))
            || (t.More? && Escapes(t.rest, updates, key, t.end == '\n' || (open && Blank(t.line))))
  {
  }

  /** What one key's stripping makes of a matched first line. */
  lemma OwnStripped(t: Text, k: string)
    requires Assigns(t.line, k)
    ensures StripLines(t, k)
         == if t.Last? then Last("")
            else if Crlf(t) || t.end == '\n' then StripLines(Behind(t), k)
            else More("", t.end, StripLines(Behind(t), k))
  {
  }

  /** A matched line is either gone, or empty in front of a terminator that ends no row. */
  lemma EmptyEscapes(end: char, rest: Text, updates: seq<Update>, key: string, open: bool)
    requires end != '\n'
    ensures Escapes(More("", end, rest), updates, key, open) == Escapes(rest, updates, key, open)
    ensures !Escapes(Last(""), updates, key, open)
  {
    EmptyNotHit(updates);
    MissEscapes(More("", end, rest), updates, key, open);
    MissEscapes(Last(""), updates, key, open);
    BlankNoKey("", key);
  }

  lemma OwnEscapes(t: Text, updates: seq<Update>, key: string, open: bool)
    requires updates != [] && Assigns(t.line, updates[0].key)
    requires t.More? ==> Escapes(StripLines(Behind(t), updates[0].key), updates[1..], key, open)
                         == Escapes(Behind(t), updates, key, open)
    ensures Escapes(StripLines(t, updates[0].key), updates[1..], key, open) == Escapes(t, updates, key, open)
  {
    HitEscapes(t, updates, key, open);
    OwnStripped(t, updates[0].key);
    if t.More? && t.end != '\n' {
      EmptyEscapes(t.end, StripLines(Behind(t), updates[0].key), updates[1..], key, open);
    } else if t.Last? {
      EmptyEscapes('\r', t, updates[1..], key, open);
    }
  }

  /** A line the first key does not match keeps its end, and what follows that end. */
  lemma OtherStripped(t: Text, k: string)
    requires !Assigns(t.line, k) && t.More?
    ensures StripLines(t, k) == More(t.line, t.end, StripLines(t.rest, k))
    ensures Crlf(t) ==> Crlf(StripLines(t, k)) && StripLines(t, k).rest.rest == StripLines(t.rest.rest, k)
  {
    NothingAssigned(k);
  }

  lemma OtherEscapes(t: Text, updates: seq<Update>, key: string, open: bool)
    requires updates != [] && !Assigns(t.line, updates[0].key) && (ReturnsPaired(t) || |updates| == 1)
    requires var k := updates[0].key;
             t.More? ==>
               && Escapes(StripLines(Behind(t), k), updates[1..], key, open) == Escapes(Behind(t), updates, key, open)
               && var next := t.end == '\n' || (open && Blank(t.line));
                  Escapes(StripLines(t.rest, k), updates[1..], key, next) == Escapes(t.rest, updates, key, next)
    ensures Escapes(StripLines(t, updates[0].key), updates[1..], key, open) == Escapes(t, updates, key, open)
  {
    var stripped := StripLines(t, updates[0].key);
    if t.More? {
      OtherStripped(t, updates[0].key);
    }
    if Hit(t.line, updates) {
      HitEscapes(t, updates, key, open);
      HitEscapes(stripped, updates[1..], key, open);
    } else {
      MissEscapes(t, updates, key, open);
      MissEscapes(stripped, updates[1..], key, open);
    }
  }

  /** Stripping one key first, or counting its lines as matched: the same lines escape. */
  lemma {:induction false} StripEscapes(t: Text, updates: seq<Update>, key: string, open: bool)
    requires updates != [] && (ReturnsPaired(t) || |updates| == 1)
    ensures Escapes(StripLines(t, updates[0].key), updates[1..], key, open) == Escapes(t, updates, key, open)
    decreases t
  {
    if t.More? {
      PairedBehind(t);
      StripEscapes(Behind(t), updates, key, open);
      StripEscapes(t.rest, updates, key, t.end == '\n' || (open && Blank(t.line)));
    }
    if Assigns(t.line, updates[0].key) {
      OwnEscapes(t, updates, key, open);
    } else {
      OtherEscapes(t, updates, key, open);
    }
  }

  lemma PairedBehind(t: Text)
    requires t.More?
    ensures ReturnsPaired(t) ==> ReturnsPaired(t.rest) && ReturnsPaired(Behind(t))
    ensures Behind(t) < t
  {
  }

  lemma {:induction false} StripAllEscapes(s: string, updates: seq<Update>, key: string)
    requires PlainKeys(updates) && (ReturnsPaired(Lines(s)) || |updates| <= 1)
    ensures Escapes(Lines(StripAll(s, updates)), [], key, true) == Escapes(Lines(s), updates, key, true)
    decreases |updates|
  {
    if updates != [] {
      var k := updates[0].key;
      FlatLines(s);
      StripByLines(Lines(s), k);
      StripLinesReads(Lines(s), k, k);
      LinesFlat(StripLines(Lines(s), k));
      StripEscapes(Lines(s), updates, key, true);
      if ReturnsPaired(Lines(s)) {
        StripPairs(Lines(s), k);
      }
      StripAllEscapes(Strip(s, k), updates[1..], key);
    }
  }

  lemma TrimmedLoads(s: string, key: string)
    requires Loadable(key)
    ensures FirstRow(TrimEnd(s), key).Some? == FirstRow(s, key).Some?
  {
    var base := TrimEnd(s);
    assert s == base + s[|base|..];
    TailNotLoaded(base, s[|base|..], key);
  }

  /**
   What the stripping leaves the loader, exactly, for any keys written and any key read: a row for it is left if
   and only if some line of the file escapes. With several keys, carriage returns stand before newlines only;
   elsewhere the order of the keys shows (OrderOfKeysShows).
   */
  lemma LeftForLoader(file: Option<string>, updates: seq<Update>, key: string)
    requires PlainKeys(updates) && Loadable(key)
    requires ReturnsPaired(Lines(OldText(file))) || |updates| <= 1
    ensures FirstRow(Base(file, updates), key).Some? <==> Escapes(Lines(OldText(file)), updates, key, true)
  {
    StripAllEscapes(OldText(file), updates, key);
    RowsByLines(StripAll(OldText(file), updates), key);
    TrimmedLoads(StripAll(OldText(file), updates), key);
  }

  lemma StrippedLines(t: Text, key: string)
    requires PlainKey(key) && Lined(t)
    ensures Strip(Flat(t), key) == Flat(StripLines(t, key)) && Lined(StripLines(t, key))
  {
    StripByLines(t, key);
    StripLinesReads(t, key, key);
  }

  /**
   Two assignments, the first ended by a carriage return alone, the second by a newline, and an empty line: taking
   out the second first makes the return and the empty line's newline one end, which then goes with the first.
   */
  lemma OrderOfKeysShows(a: string, b: string, first: string, second: string, t: Text)
    requires PlainKey(a) && PlainKey(b) && OneLine(first) && OneLine(second)
    requires Assigns(first, a) && !Assigns(first, b) && Assigns(second, b) && !Assigns(second, a)
    requires t == More(first, '\r', More(second, '\n', More("", '\n', Last(""))))
    ensures Strip(Strip(Flat(t), a), b) == "\r\n" && Strip(Strip(Flat(t), b), a) == ""
  {
    var empty := More("", '\n', Last(""));
    NothingAssigned(a);
    NothingAssigned(b);
    var below := More(second, '\n', empty);
    assert StripLines(Last(""), a) == StripLines(Last(""), b) == Last("");
    assert StripLines(empty, a) == StripLines(empty, b) == empty;
    assert StripLines(below, a) == below && StripLines(below, b) == empty;
    assert StripLines(t, a) == More("", '\r', below) && StripLines(More("", '\r', below), b) == More("", '\r', empty);
    assert StripLines(t, b) == More(first, '\r', empty) && StripLines(More(first, '\r', empty), a) == Last("");
    StrippedLines(t, a);
    StrippedLines(t, b);
    StrippedLines(StripLines(t, a), b);
    StrippedLines(StripLines(t, b), a);
    assert Flat(empty) == "\n" && Flat(More("", '\r', empty)) == "\r\n";
  }

  /**
   Loading without overwrite a file just written: an undefined name gets the value written, unless a line of the
   old file escaped; then, and only then, an older row decides.
   */
  lemma StaleExactlyIfEscaped(file: Option<string>, updates: seq<Update>, i: nat, env: Env, shouldLoad: string -> bool)
    requires PlainKeys(updates) && DistinctKeys(updates) && OneLineValues(updates)
    requires i < |updates| && updates[i].value.Some? && Loadable(updates[i].key) && shouldLoad(updates[i].key)
    requires updates[i].key !in env
    requires ReturnsPaired(Lines(OldText(file))) || |updates| <= 1
    ensures var key := updates[i].key;
            var older := FirstRow(Base(file, updates), key);
            && Lookup(Load(env, Written(file, updates), shouldLoad, false), key) == Or(older, updates[i].value)
            && (older.Some? <==> Escapes(Lines(OldText(file)), updates, key, true))
  {
    LoadedAfterWriting(file, updates, i, env, shouldLoad, false);
    LeftForLoader(file, updates, updates[i].key);
  }

  // ---------------------------------------------------------------- files with ordinary line ends

  /** Every line but the last ends in a newline, or in a carriage return and a newline. */
  predicate OrdinaryEnds(t: Text)
    decreases t
  {
    t.More? ==> (t.end == '\n' || Crlf(t)) && OrdinaryEnds(t.rest)
  }

  /** The key behind white space that is not only spaces and tabs. */
  predicate Exotic(line: string, key: string) {
    key + "=" <= TrimStart(line) && Indent(line) < |line| - |TrimStart(line)|
  }

  predicate SomeExotic(t: Text, key: string)
    decreases t
  {
    Exotic(t.line, key) || (t.More? && SomeExotic(t.rest, key))
  }

  lemma TrimStartSkip(s: string)
    requires s != "" && IsSpace(s[0])
    ensures TrimStart(s) == TrimStart(s[1..])
  {
  }

  lemma IndentSkip(s: string, n: nat)
    requires s != "" && (s[0] == ' ' || s[0] == '\t') && n == Indent(s[1..])
    ensures Indent(s) == n + 1 && s[n + 1..] == s[1..][n..]
  {
  }

  lemma {:induction false} IndentSkipped(line: string)
    ensures TrimStart(line) == TrimStart(line[Indent(line)..])
    ensures Indent(line) <= |line| - |TrimStart(line)|
    decreases |line|
  {
    if line != "" && (line[0] == ' ' || line[0] == '\t') {
      IndentSkipped(line[1..]);
      TrimStartSkip(line);
      IndentSkip(line, Indent(line[1..]));
    } else {
      assert Indent(line) == 0 && line[0..] == line;
    }
  }

  lemma SpaceNotKey(rest: string, key: string)
    requires PlainKey(key) && key != "" && rest != "" && IsSpace(rest[0])
    ensures !(key <= rest)
  {
    assert !IsSpace(key[0]);
  }

  lemma NoEquals(line: string, key: string, i: nat)
    requires PlainKey(key) && i <= Indent(line) < |line| && IsSpace(line[Indent(line)])
    ensures EqualsAfter(line, key, i) == None
  {
    if key == "" {
      IndentFrom(line, i);
      assert line[i + |key|..] == line[i..];
    } else {
      assert line[i..][0] == line[i];
      SpaceNotKey(line[i..], key);
    }
  }

  lemma {:induction false} NotAssigned(line: string, key: string, i: nat)
    requires PlainKey(key) && i <= Indent(line) < |line| && IsSpace(line[Indent(line)])
    ensures Assigned(line, key, i) == None
    decreases i
  {
    NoEquals(line, key, i);
    if i > 0 {
      NotAssigned(line, key, i - 1);
    }
  }

  lemma {:induction false} IndentFrom(line: string, i: nat)
    requires i <= Indent(line)
    ensures i + Indent(line[i..]) == Indent(line)
    decreases i
  {
    if i > 0 {
      IndentFrom(line[1..], i - 1);
      assert line[1..][i - 1..] == line[i..];
    } else {
      assert line[0..] == line;
    }
  }

  /** No pattern matches a line that white space other than spaces and tabs indents. */
  lemma {:induction false} ExoticNotHit(line: string, updates: seq<Update>)
    requires PlainKeys(updates) && Indent(line) < |line| && IsSpace(line[Indent(line)])
    ensures !Hit(line, updates)
    decreases |updates|
  {
    if updates != [] {
      NotAssigned(line, updates[0].key, Indent(line));
      ExoticNotHit(line, updates[1..]);
    }
  }

  lemma {:induction false} HitByOwn(line: string, updates: seq<Update>, key: string)
    requires Names(updates, key) && Assigns(line, key)
    ensures Hit(line, updates)
    decreases |updates|
  {
    NamesFirst(updates, key);
    if updates[0].key != key {
      HitByOwn(line, updates[1..], key);
    }
  }

  lemma PlainIndentAssigns(line: string, key: string)
    requires key + "=" <= line[Indent(line)..]
    ensures Assigns(line, key)
  {
    var n := Indent(line);
    var rest := line[n..];
    assert rest[|key|] == '=' && rest[..|key|] == key;
    assert line[n + |key|..] == rest[|key|..];
    assert line[n + |key|..][0] == '=';
  }

  lemma ExoticFirst(line: string, key: string)
    requires Exotic(line, key)
    ensures Indent(line) < |line| && IsSpace(line[Indent(line)])
  {
    assert line[..|line| - |TrimStart(line)|][Indent(line)] == line[Indent(line)];
  }

  /** A line that starts with a written key behind white space: a pattern matches it unless it is exotic. */
  lemma KeyLine(line: string, updates: seq<Update>, key: string)
    requires PlainKeys(updates) && Names(updates, key) && key + "=" <= TrimStart(line)
    ensures Hit(line, updates) <==> !Exotic(line, key)
  {
    if Exotic(line, key) {
      ExoticFirst(line, key);
      ExoticNotHit(line, updates);
    } else {
      IndentSkipped(line);
      assert line[Indent(line)..] == TrimStart(line);
      PlainIndentAssigns(line, key);
      HitByOwn(line, updates, key);
    }
  }

  lemma {:induction false} EscapesByIndent(t: Text, updates: seq<Update>, key: string)
    requires PlainKeys(updates) && Names(updates, key) && Loadable(key) && OrdinaryEnds(t)
    ensures Escapes(t, updates, key, true) <==> SomeExotic(t, key)
    decreases t
  {
    EmptyNotHit(updates);
    assert TrimStart("") == "";
    if key + "=" <= TrimStart(t.line) {
      KeyLine(t.line, updates, key);
    }
    if t.More? {
      EscapesByIndent(t.rest, updates, key);
      if Crlf(t) {
        EscapesByIndent(t.rest.rest, updates, key);
      }
    }
    if Exotic(t.line, key) {
    }
  }

  lemma {:induction false} OrdinaryPaired(t: Text)
    requires OrdinaryEnds(t)
    ensures ReturnsPaired(t)
  {
    if t.More? {
      OrdinaryPaired(t.rest);
    }
  }

  /**
   In a file with ordinary line ends the stripping leaves the loader a row of a written key exactly when one is
   indented with white space other than spaces and tabs.
   */
  lemma StrippingReachesLoader(file: Option<string>, updates: seq<Update>, key: string)
    requires PlainKeys(updates) && Names(updates, key) && Loadable(key) && OrdinaryEnds(Lines(OldText(file)))
    ensures FirstRow(Base(file, updates), key) == None <==> !SomeExotic(Lines(OldText(file)), key)
  {
    OrdinaryPaired(Lines(OldText(file)));
    LeftForLoader(file, updates, key);
    EscapesByIndent(Lines(OldText(file)), updates, key);
  }

  /**
   With a line separator a row need not be indented itself: the loader reads this file's one row from its first
   line, the stripping takes that line alone, and the line behind it is what the loader reads then.
   */
  lemma UncoveredLineEscapes(end: char, first: string, second: string, update: Update)
    requires PlainKey(update.key) && Loadable(update.key) && (end == '\U{2028}' || end == '\U{2029}')
    requires Starts(first, update.key) && OneLine(first) && OneLine(second) && Exotic(second, update.key)
    ensures FirstRow(first + ([end] + second), update.key).Some?
    ensures FirstRow(Base(Some(first + ([end] + second)), [update]), update.key).Some?
  {
    var key, updates := update.key, [update];
    var t := More(first, end, Last(second));
    var file := Some(first + ([end] + second));
    assert Flat(t) == file.value;
    LinesFlat(t);
    StartsAssigns(first, key, key);
    assert Names(updates, key) by { assert updates[0].key == key; }
    KeyLine(second, updates, key);
    assert first[0] == (key + "=")[0] && TrimStart(first) == first;
    RowsByLines(file.value, key);
    LeftForLoader(file, updates, key);
  }
}
