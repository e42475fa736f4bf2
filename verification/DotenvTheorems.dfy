/** What the reader finds after the multi-key writer of src/utils/dotenv.ts. */
module DotenvTheorems {
  import opened JsText
  import opened Options
  import opened Dotenv
  import opened DotenvLines

  predicate PlainKeys(updates: seq<Update>) {
    forall u | u in updates :: PlainKey(u.key)
  }

  /** The keys of an object differ. */
  predicate DistinctKeys(updates: seq<Update>) {
    forall i, j | 0 <= i < j < |updates| :: updates[i].key != updates[j].key
  }

  predicate OneLineValues(updates: seq<Update>) {
    forall u | u in updates && u.value.Some? :: OneLine(u.value.value)
  }

  predicate Names(updates: seq<Update>, key: string) {
    exists i :: 0 <= i < |updates| && updates[i].key == key
  }

  // ---------------------------------------------------------------- one line

  lemma QuotedKeepsLines(value: string)
    requires OneLine(value)
    ensures OneLine(Quoted(value))
  {
    EscapingKeepsLines(value);
    EscapingKeepsLines(DoubleBackslashes(value));
  }

  /** What the reader returns is on one line. */
  lemma UnquotedIsOneLine(raw: string)
    requires OneLine(raw)
    ensures OneLine(Unquoted(raw))
  {
    var value := Trim(raw);
    assert OneLine(TrimEnd(raw));
    assert OneLine(value);
    if |value| > 1 {
      UnescapingKeepsLines(value[1..|value| - 1]);
      UnescapingKeepsLines(UnescapeQuotes(value[1..|value| - 1]));
    }
  }

  /** A written line is found under its own key, up to the end of the line. */
  lemma OwnLine(key: string, value: string)
    requires PlainKey(key)
    ensures FirstMatch(Line(key, value), key) == Some(Quoted(value)[..LineLen(Quoted(value))])
  {
    assert Line(key, value)[|key| + 1..] == Quoted(value);
    assert Line(key, value)[..|key| + 1] == key + "=";
  }

  /** A written line says nothing about other keys, when it is one line. */
  lemma OtherLine(key: string, value: string, other: string)
    requires PlainKey(key) && PlainKey(other) && key != other && OneLine(value)
    ensures FirstMatch(Line(key, value), other) == None
  {
    var line := Line(key, value);
    QuotedKeepsLines(value);
    assert key + "=" <= line;
    assert line + "" == line;
    MatchByLines(Last(line), other);
    if Starts(line, other) {
      StartsAssigns(line, key, other);
      StartsAssigns(line, other, other);
    }
  }

  // ---------------------------------------------------------------- appending

  lemma NothingInEmpty(key: string)
    ensures FirstMatch("", key) == None
  {
  }

  lemma AppendedLine(content: string, line: string, key: string)
    requires PlainKey(key)
    ensures FirstMatch(AppendLine(content, line), key)
            == if FirstMatch(content, key).Some? then FirstMatch(content, key) else FirstMatch(line, key)
  {
    NothingInEmpty(key);
    if content != "" {
      MatchAfter(content, line, key);
      Associate(content, "\n", line);
    }
  }

  /** What is found already stays found, whatever is appended. */
  lemma {:induction false} FoundStays(content: string, updates: seq<Update>, key: string)
    requires PlainKey(key) && FirstMatch(content, key).Some?
    ensures FirstMatch(AppendAll(content, updates), key) == FirstMatch(content, key)
    decreases |updates|
  {
    if updates != [] {
      var u := updates[0];
      if u.value.None? {
        FoundStays(content, updates[1..], key);
      } else {
        AppendedLine(content, Line(u.key, u.value.value), key);
        FoundStays(AppendLine(content, Line(u.key, u.value.value)), updates[1..], key);
      }
    }
  }

  /** Lines for other keys add nothing to find. */
  lemma {:induction false} OthersAdd(content: string, updates: seq<Update>, key: string)
    requires PlainKey(key) && PlainKeys(updates) && OneLineValues(updates)
    requires forall u | u in updates && u.key == key :: u.value.None?
    ensures FirstMatch(AppendAll(content, updates), key) == FirstMatch(content, key)
    decreases |updates|
  {
    if updates != [] {
      var u := updates[0];
      if u.value.None? {
        OthersAdd(content, updates[1..], key);
      } else {
        var line := Line(u.key, u.value.value);
        AppendedLine(content, line, key);
        OtherLine(u.key, u.value.value, key);
        OthersAdd(AppendLine(content, line), updates[1..], key);
      }
    }
  }

  lemma {:induction false} AppendSplit(content: string, a: seq<Update>, b: seq<Update>)
    ensures AppendAll(content, a + b) == AppendAll(AppendAll(content, a), b)
    decreases |a|
  {
    if a == [] {
      assert a + b == b;
    } else {
      assert (a + b)[1..] == a[1..] + b;
      var next := if a[0].value.None? then content else AppendLine(content, Line(a[0].key, a[0].value.value));
      AppendSplit(next, a[1..], b);
    }
  }

  // ---------------------------------------------------------------- stripping

  lemma {:induction false} StripAllReads(s: string, updates: seq<Update>, key: string)
    requires PlainKey(key) && PlainKeys(updates)
    ensures FirstMatch(StripAll(s, updates), key) == if Names(updates, key) then None else FirstMatch(s, key)
    decreases |updates|
  {
    if updates != [] {
      StripReads(s, updates[0].key, key);
      StripAllReads(Strip(s, updates[0].key), updates[1..], key);
      NamesFirst(updates, key);
    }
  }

  lemma NamesFirst(updates: seq<Update>, key: string)
    requires updates != []
    ensures Names(updates, key) <==> updates[0].key == key || Names(updates[1..], key)
  {
    if i :| 0 <= i < |updates| && updates[i].key == key && i > 0 {
      assert updates[1..][i - 1].key == key;
    }
    if i :| 0 <= i < |updates[1..]| && updates[1..][i].key == key {
      assert updates[i + 1].key == key;
    }
  }

  lemma {:induction false} StripAllCleans(s: string, updates: seq<Update>, key: string)
    requires PlainKey(key) && PlainKeys(updates) && (Names(updates, key) || Clean(s, key))
    ensures Clean(StripAll(s, updates), key)
    decreases |updates|
  {
    if updates != [] {
      NamesFirst(updates, key);
      if updates[0].key == key || Clean(s, key) {
        StripCleans(s, updates[0].key, key);
      }
      StripAllCleans(Strip(s, updates[0].key), updates[1..], key);
    }
  }

  /** What the appended lines are appended to. */
  function Base(file: Option<string>, updates: seq<Update>): string {
    TrimEnd(StripAll(OldText(file), updates))
  }

  lemma TrimmedReads(s: string, key: string)
    requires PlainKey(key)
    ensures SameTrimmed(FirstMatch(s, key), FirstMatch(TrimEnd(s), key))
    ensures Clean(s, key) ==> Clean(TrimEnd(s), key)
  {
    var b := TrimEnd(s);
    assert s == b + s[|b|..];
    TailUnread(b, s[|b|..], key);
  }

  function OldText(file: Option<string>): string {
    if file.None? then "" else file.value
  }

  lemma BaseReads(file: Option<string>, updates: seq<Update>, key: string)
    requires PlainKey(key) && PlainKeys(updates)
    ensures if Names(updates, key) then FirstMatch(Base(file, updates), key) == None && Clean(Base(file, updates), key)
            else SameTrimmed(FirstMatch(OldText(file), key), FirstMatch(Base(file, updates), key))
  {
    StripAllReads(OldText(file), updates, key);
    TrimmedReads(StripAll(OldText(file), updates), key);
    if Names(updates, key) {
      StripAllCleans(OldText(file), updates, key);
    }
  }

  lemma WrittenReads(file: Option<string>, updates: seq<Update>, key: string)
    requires PlainKey(key)
    ensures FirstMatch(Written(file, updates), key) == FirstMatch(AppendAll(Base(file, updates), updates), key)
  {
    var content := AppendAll(Base(file, updates), updates);
    NothingInEmpty(key);
    if content != "" {
      assert content + "\n" == content + ("\n" + "");
      MatchAfter(content, "", key);
    }
  }

  // ---------------------------------------------------------------- the theorems

  /** The first line found for a written key is its own, up to the first line terminator. */
  lemma OwnLineIsFound(file: Option<string>, updates: seq<Update>, i: nat)
    requires PlainKeys(updates) && DistinctKeys(updates)
    requires i < |updates| && updates[i].value.Some? && OneLineValues(updates[..i])
    ensures var quoted := Quoted(updates[i].value.value);
            FirstMatch(Written(file, updates), updates[i].key) == Some(quoted[..LineLen(quoted)])
  {
    var u, base := updates[i], Base(file, updates);
    var first := AppendAll(base, updates[..i]);
    var own := AppendLine(first, Line(u.key, u.value.value));
    assert updates == updates[..i] + updates[i..] && updates[i..][1..] == updates[i + 1..];
    AppendSplit(base, updates[..i], updates[i..]);
    BaseReads(file, updates, u.key);
    OthersAdd(base, updates[..i], u.key);
    AppendedLine(first, Line(u.key, u.value.value), u.key);
    OwnLine(u.key, u.value.value);
    FoundStays(own, updates[i + 1..], u.key);
    WrittenReads(file, updates, u.key);
  }

  lemma CutValue(value: string)
    ensures var quoted := Quoted(value); Unquoted(quoted[..LineLen(quoted)]) == value <==> OneLine(value)
  {
    var quoted := Quoted(value);
    UnquotedIsOneLine(quoted[..LineLen(quoted)]);
    if OneLine(value) {
      QuotedKeepsLines(value);
      assert quoted[..LineLen(quoted)] == quoted;
      QuotingRoundTrip(value);
    }
  }

  /**
   A written value reads back exactly when it is not empty and holds no line terminator, whatever was in
   the file and whatever values follow; the values written before it must be on one line themselves.
   */
  lemma ReadsBack(file: Option<string>, updates: seq<Update>, i: nat)
    requires PlainKeys(updates) && DistinctKeys(updates)
    requires i < |updates| && updates[i].value.Some? && OneLineValues(updates[..i])
    ensures var u := updates[i];
            Read(Some(Written(file, updates)), u.key) == u.value <==> u.value.value != "" && OneLine(u.value.value)
  {
    OwnLineIsFound(file, updates, i);
    CutValue(updates[i].value.value);
  }

  /** A key deleted with null reads as absent. */
  lemma NullReadsAbsent(file: Option<string>, updates: seq<Update>, i: nat)
    requires PlainKeys(updates) && DistinctKeys(updates) && OneLineValues(updates)
    requires i < |updates| && updates[i].value.None?
    ensures Read(Some(Written(file, updates)), updates[i].key) == None
  {
    var key := updates[i].key;
    BaseReads(file, updates, key);
    OthersAdd(Base(file, updates), updates, key);
    WrittenReads(file, updates, key);
  }

  /** Every key the updates do not name reads as before. */
  lemma OthersReadAsBefore(file: Option<string>, updates: seq<Update>, key: string)
    requires PlainKeys(updates) && OneLineValues(updates) && PlainKey(key) && !Names(updates, key)
    ensures Read(Some(Written(file, updates)), key) == Read(file, key)
  {
    NothingInEmpty(key);
    BaseReads(file, updates, key);
    OthersAdd(Base(file, updates), updates, key);
    WrittenReads(file, updates, key);
    SameShown(FirstMatch(OldText(file), key), FirstMatch(Base(file, updates), key));
  }

  lemma SameShown(a: Option<string>, b: Option<string>)
    requires SameTrimmed(a, b)
    ensures Shown(a) == Shown(b)
  {
  }

  // ---------------------------------------------------------------- writing twice

  /** The appended lines, each with its newline. */
  function Block(updates: seq<Update>): string
    decreases |updates|
  {
    if updates == [] then ""
    else if updates[0].value.None? then Block(updates[1..])
    else Line(updates[0].key, updates[0].value.value) + ("\n" + Block(updates[1..]))
  }

  lemma {:induction false} AppendedIsBlock(content: string, updates: seq<Update>)
    requires content != ""
    ensures AppendAll(content, updates) != "" && AppendAll(content, updates) + "\n" == content + ("\n" + Block(updates))
    decreases |updates|
  {
    if updates != [] {
      if updates[0].value.None? {
        AppendedIsBlock(content, updates[1..]);
      } else {
        var line, below := Line(updates[0].key, updates[0].value.value), "\n" + Block(updates[1..]);
        AppendedIsBlock(content + "\n" + line, updates[1..]);
        Associate(content + "\n", line, below);
        Associate(content, "\n", line + below);
      }
    }
  }

  lemma {:induction false} AppendedToNothing(updates: seq<Update>)
    ensures AppendAll("", updates) == "" ==> Block(updates) == ""
    ensures AppendAll("", updates) != "" ==> AppendAll("", updates) + "\n" == Block(updates)
    decreases |updates|
  {
    if updates != [] {
      if updates[0].value.None? {
        AppendedToNothing(updates[1..]);
      } else {
        AppendedIsBlock(Line(updates[0].key, updates[0].value.value), updates[1..]);
      }
    }
  }

  function Drop(updates: seq<Update>, key: string): seq<Update>
    decreases |updates|
  {
    if updates == [] then []
    else if updates[0].key == key then Drop(updates[1..], key)
    else [updates[0]] + Drop(updates[1..], key)
  }

  lemma {:induction false} DropKeeps(updates: seq<Update>, key: string)
    ensures forall u :: u in Drop(updates, key) <==> u in updates && u.key != key
  {
    if updates != [] {
      DropKeeps(updates[1..], key);
    }
  }

  lemma {:induction false} StripBlock(updates: seq<Update>, key: string)
    requires PlainKey(key) && PlainKeys(updates) && OneLineValues(updates)
    ensures Strip(Block(updates), key) == Block(Drop(updates, key))
    decreases |updates|
  {
    if updates != [] {
      var u := updates[0];
      StripBlock(updates[1..], key);
      if u.value.Some? {
        var line := Line(u.key, u.value.value);
        QuotedKeepsLines(u.value.value);
        assert u.key + "=" <= line;
        StartsAssigns(line, u.key, key);
        if u.key == key {
          HitStripped(line, '\n', Block(updates[1..]), key);
        } else {
          MissStripped(line, '\n', Block(updates[1..]), key);
        }
      }
    }
  }

  /** Stripping every key leaves nothing of the lines written for them. */
  lemma {:induction false} StripAllBlock(written: seq<Update>, updates: seq<Update>)
    requires PlainKeys(updates) && PlainKeys(written) && OneLineValues(written)
    requires forall u | u in written :: Names(updates, u.key)
    ensures StripAll(Block(written), updates) == ""
    decreases |updates|
  {
    if updates == [] {
      assert written != [] ==> written[0] in written;
    } else {
      var rest := Drop(written, updates[0].key);
      StripBlock(written, updates[0].key);
      DropKeeps(written, updates[0].key);
      forall u | u in rest
        ensures Names(updates[1..], u.key)
      {
        NamesFirst(updates, u.key);
      }
      StripAllBlock(rest, updates[1..]);
    }
  }

  lemma {:induction false} StripAllAfter(b: string, c: string, updates: seq<Update>)
    requires PlainKeys(updates) && forall u | u in updates :: Clean(b, u.key)
    ensures StripAll(b + ("\n" + c), updates) == b + ("\n" + StripAll(c, updates))
    decreases |updates|
  {
    if updates != [] {
      StripAfter(b, c, updates[0].key);
      StripAllAfter(b, Strip(c, updates[0].key), updates[1..]);
    }
  }

  lemma {:induction false} BlockSplit(a: seq<Update>, b: seq<Update>)
    ensures Block(a + b) == Block(a) + Block(b)
    decreases |a|
  {
    if a == [] {
      assert a + b == b && "" + Block(b) == Block(b);
    } else {
      assert (a + b)[1..] == a[1..] + b;
      BlockSplit(a[1..], b);
      if a[0].value.Some? {
        Associate("\n", Block(a[1..]), Block(b));
        Associate(Line(a[0].key, a[0].value.value), "\n" + Block(a[1..]), Block(b));
      }
    }
  }

  /** The new lines end the file in the order of the updates, each on a line of its own, with nothing after them. */
  lemma WrittenInOrder(file: Option<string>, before: seq<Update>, u: Update, after: seq<Update>)
    requires u.value.Some?
    ensures var updates := before + [u] + after;
            var lines := Block(before) + (u.key + "=" + Quoted(u.value.value) + "\n") + Block(after);
            Written(file, updates) == (if Base(file, updates) == "" then "" else Base(file, updates) + "\n") + lines
  {
    var updates := before + [u] + after;
    var base := Base(file, updates);
    BlockSplit(before + [u], after);
    BlockSplit(before, [u]);
    assert [u][1..] == [] && Block([]) == "" && Line(u.key, u.value.value) + ("\n" + "") == Line(u.key, u.value.value) + "\n";
    assert Block([u]) == u.key + "=" + Quoted(u.value.value) + "\n";
    if base == "" {
      AppendedToNothing(updates);
      assert "" + Block(updates) == Block(updates);
    } else {
      AppendedIsBlock(base, updates);
      Associate(base, "\n", Block(updates));
    }
  }

  /** Writing the same updates again changes nothing. */
  lemma WritingTwiceIsWritingOnce(file: Option<string>, updates: seq<Update>)
    requires PlainKeys(updates) && OneLineValues(updates)
    ensures Written(Some(Written(file, updates)), updates) == Written(file, updates)
  {
    var base, block := Base(file, updates), Block(updates);
    forall u | u in updates
      ensures Names(updates, u.key) && Clean(base, u.key)
    {
      var i :| 0 <= i < |updates| && updates[i] == u;
      BaseReads(file, updates, u.key);
    }
    StripAllBlock(updates, updates);
    if base == "" {
      AppendedToNothing(updates);
      assert Written(file, updates) == block;
    } else {
      AppendedIsBlock(base, updates);
      StripAllAfter(base, block, updates);
      assert Written(file, updates) == base + ("\n" + block);
      assert "\n" + "" == "\n";
      TrimEndTail(base, "\n");
    }
    assert Base(Some(Written(file, updates)), updates) == base;
  }

  // ---------------------------------------------------------------- why the conditions

  lemma FoundAtStart(key: string, tail: string)
    ensures FirstMatch(key + "=" + tail, key) == Some(tail[..LineLen(tail)])
  {
    assert (key + "=" + tail)[|key| + 1..] == tail;
    assert (key + "=" + tail)[..|key| + 1] == key + "=";
  }

  lemma TrimKeepsFirst(raw: string)
    requires raw != "" && !IsSpace(raw[0])
    ensures Trim(raw) != "" && Trim(raw)[0] == raw[0]
  {
    var t := TrimEnd(raw);
    assert raw == t + raw[|t|..];
  }

  lemma TwoWritten(first: string, second: string, updates: seq<Update>)
    requires |updates| == 2 && updates[0].value.Some? && updates[1].value.Some?
    requires first == Line(updates[0].key, updates[0].value.value) && first != ""
    requires second == Line(updates[1].key, updates[1].value.value)
    ensures Written(None, updates) == first + "\n" + second + "\n"
  {
    assert Strip("", updates[0].key) == "" && Strip("", updates[1].key) == "";
    assert StripAll("", updates) == StripAll("", updates[1..]) && StripAll("", updates[1..]) == StripAll("", updates[1..][1..]);
    assert updates[1..][0] == updates[1] && updates[1..][1..] == [];
    assert AppendAll("", updates) == AppendAll(first, updates[1..]);
    assert AppendAll(first, updates[1..]) == AppendAll(AppendLine(first, second), updates[1..][1..]);
  }

  /** What is read of a key whose line begins with it and an equals sign, however the value goes on. */
  lemma ReadStarts(key: string, c: char, tail: string)
    requires !IsSpace(c) && c != '"'
    ensures Read(Some(key + "=" + ([c] + tail)), key).Some?
    ensures Read(Some(key + "=" + ([c] + tail)), key).value[0] == c
  {
    var raw := ([c] + tail)[..LineLen([c] + tail)];
    FoundAtStart(key, [c] + tail);
    assert raw[0] == c;
    TrimKeepsFirst(raw);
  }

  /** A key with an equals sign hides the shorter key written after it. */
  lemma EqualsInKeyShadows(updates: seq<Update>)
    requires updates == [Update("A=B", Some("x")), Update("A", Some("y"))]
    ensures Read(Some(Written(None, updates)), "A").Some? && Read(Some(Written(None, updates)), "A") != Some("y")
  {
    var first, second := Line("A=B", "x"), Line("A", "y");
    TwoWritten(first, second, updates);
    var tail := "=" + Quoted("x") + "\n" + second + "\n";
    assert Written(None, updates) == "A" + "=" + (['B'] + tail);
    ReadStarts("A", 'B', tail);
  }
}
