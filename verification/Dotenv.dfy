/**
 The multi-key writer and the reader of src/utils/dotenv.ts. The regular expressions are spelled out as
 scans: a line starts at the beginning or after any JavaScript line terminator, and the dot stops at one.
 */
module Dotenv {
  import opened JsText
  import opened Options

  /** One entry of the updates, in the order of Object.entries; None deletes. */
  datatype Update = Update(key: string, value: Option<string>)

  // ---------------------------------------------------------------- lines

  function LineLen(s: string): (n: nat)
    ensures n <= |s| && OneLine(s[..n]) && (n < |s| ==> IsLineTerminator(s[n]))
  {
    if s == "" || IsLineTerminator(s[0]) then 0 else 1 + LineLen(s[1..])
  }

  /** The leading spaces and tabs. */
  function Indent(s: string): (n: nat)
    ensures n <= |s| && (forall i | 0 <= i < n :: s[i] == ' ' || s[i] == '\t')
    ensures n < |s| ==> s[n] != ' ' && s[n] != '\t'
  {
    if s != "" && (s[0] == ' ' || s[0] == '\t') then 1 + Indent(s[1..]) else 0
  }

  /** With the key at i, the position after blanks and the equals sign. */
  function EqualsAfter(s: string, key: string, i: nat): (q: Option<nat>)
    requires i <= |s|
    ensures q.Some? ==> i < q.value <= |s|
  {
    if key <= s[i..] then
      var j := i + |key| + Indent(s[i + |key|..]);
      if j < |s| && s[j] == '=' then Some(j + 1) else None
    else None
  }

  /** The longest indent first, then shorter ones. */
  function Assigned(s: string, key: string, indent: nat): (q: Option<nat>)
    requires indent <= |s|
    ensures q.Some? ==> 0 < q.value <= |s|
    decreases indent
  {
    if EqualsAfter(s, key, indent).Some? || indent == 0 then EqualsAfter(s, key, indent) else Assigned(s, key, indent - 1)
  }

  /** What is kept of a first line that ends at e, and how far it reaches: a hit goes with the newline that ends it. */
  function CutAt(s: string, hit: bool, e: nat): (r: (string, nat))
    requires s != "" && e <= |s| && (e == 0 ==> IsLineTerminator(s[0]))
    ensures 0 < r.1 <= |s|
  {
    if hit && e + 1 < |s| && s[e] == '\r' && s[e + 1] == '\n' then ("", e + 2)
    else if hit && e < |s| && s[e] == '\n' then ("", e + 1)
    else
      var next := if e == |s| then e else e + 1;
      (if hit then s[e..next] else s[..next], next)
  }

  function Cut(s: string, key: string): (r: (string, nat))
    requires s != ""
    ensures 0 < r.1 <= |s|
  {
    var q := Assigned(s, key, Indent(s));
    CutAt(s, q.Some?, if q.Some? then q.value + LineLen(s[q.value..]) else LineLen(s))
  }

  /** All lines that assign the key removed. */
  function Strip(s: string, key: string): string
    decreases |s|
  {
    if s == "" then "" else Cut(s, key).0 + Strip(s[Cut(s, key).1..], key)
  }

  /** What follows "KEY=" on the first line that starts with it. */
  function FirstMatch(s: string, key: string): Option<string>
    decreases |s|
  {
    if key + "=" <= s then Some(s[|key| + 1..][..LineLen(s[|key| + 1..])])
    else if LineLen(s) == |s| then None
    else FirstMatch(s[LineLen(s) + 1..], key)
  }

  // ---------------------------------------------------------------- quoting

  function DoubleBackslashes(s: string): string {
    if s == "" then "" else (if s[0] == '\\' then "\\\\" else [s[0]]) + DoubleBackslashes(s[1..])
  }

  function EscapeQuotes(s: string): string {
    if s == "" then "" else (if s[0] == '"' then "\\\"" else [s[0]]) + EscapeQuotes(s[1..])
  }

  function UnescapeQuotes(s: string): string
    decreases |s|
  {
    if s == "" then ""
    else if "\\\"" <= s then "\"" + UnescapeQuotes(s[2..])
    else [s[0]] + UnescapeQuotes(s[1..])
  }

  function HalveBackslashes(s: string): string
    decreases |s|
  {
    if s == "" then ""
    else if "\\\\" <= s then "\\" + HalveBackslashes(s[2..])
    else [s[0]] + HalveBackslashes(s[1..])
  }

  function Quoted(value: string): string {
    "\"" + EscapeQuotes(DoubleBackslashes(value)) + "\""
  }

  function Unwrapped(value: string): string {
    if value != "" && value[0] == '"' && value[|value| - 1] == '"' then
      HalveBackslashes(UnescapeQuotes(if |value| == 1 then "" else value[1..|value| - 1]))
    else value
  }

  /** What the reader makes of the text after the equals sign. */
  function Unquoted(raw: string): string {
    Unwrapped(Trim(raw))
  }

  function Line(key: string, value: string): string {
    key + "=" + Quoted(value)
  }

  // ---------------------------------------------------------------- the file

  /** The value of a match; an empty one reads as absent. */
  function Shown(raw: Option<string>): Option<string> {
    if raw.None? || Unquoted(raw.value) == "" then None else Some(Unquoted(raw.value))
  }

  function Read(file: Option<string>, key: string): Option<string> {
    if file.None? then None else Shown(FirstMatch(file.value, key))
  }

  function StripAll(s: string, updates: seq<Update>): string
    decreases |updates|
  {
    if updates == [] then s else StripAll(Strip(s, updates[0].key), updates[1..])
  }

  function AppendLine(content: string, line: string): string {
    if content == "" then line else content + "\n" + line
  }

  function AppendAll(content: string, updates: seq<Update>): string
    decreases |updates|
  {
    if updates == [] then content
    else if updates[0].value.None? then AppendAll(content, updates[1..])
    else AppendAll(AppendLine(content, Line(updates[0].key, updates[0].value.value)), updates[1..])
  }

  function Written(file: Option<string>, updates: seq<Update>): string {
    var content := AppendAll(TrimEnd(StripAll(if file.None? then "" else file.value, updates)), updates);
    if content == "" then "" else content + "\n"
  }

  class DotenvFile {
    var content: Option<string>

    method AppendMultiple(updates: seq<Update>)
      modifies this
      ensures content == Some(Written(old(content), updates))
    {
      var text := if content.None? then "" else content.value;
      ghost var start := text;
      for i := 0 to |updates|
        invariant StripAll(start, updates) == StripAll(text, updates[i..])
      {
        text := Strip(text, updates[i].key);
        assert updates[i..][1..] == updates[i + 1..];
      }
      text := TrimEnd(text);
      ghost var trimmed := text;
      for i := 0 to |updates|
        invariant AppendAll(trimmed, updates) == AppendAll(text, updates[i..])
      {
        assert updates[i..][1..] == updates[i + 1..];
        if updates[i].value.Some? {
          var line := Line(updates[i].key, updates[i].value.value);
          text := if text == "" then line else text + "\n" + line;
        }
      }
      if text != "" {
        text := text + "\n";
      }
      content := Some(text);
    }

    method ReadValue(key: string) returns (value: Option<string>)
      ensures value == Read(content, key)
    {
      if content.None? {
        return None;
      }
      var raw := FirstMatch(content.value, key);
      if raw.None? {
        return None;
      }
      var text := Unquoted(raw.value);
      value := if text == "" then None else Some(text);
    }
  }

  // ---------------------------------------------------------------- which lines assign

  predicate Blanks(t: string) {
    forall i | 0 <= i < |t| :: t[i] == ' ' || t[i] == '\t'
  }

  lemma IndentIs(blanks: string, rest: string)
    requires Blanks(blanks) && (rest == "" || (rest[0] != ' ' && rest[0] != '\t'))
    ensures Indent(blanks + rest) == |blanks|
  {
    var s, n := blanks + rest, Indent(blanks + rest);
    assert forall i | 0 <= i < |blanks| :: s[i] == blanks[i];
    assert rest != "" ==> s[|blanks|] == rest[0];
  }

  lemma IndentAtLeast(blanks: string, rest: string)
    requires Blanks(blanks)
    ensures Indent(blanks + rest) >= |blanks|
  {
    assert forall i | 0 <= i < |blanks| :: (blanks + rest)[i] == blanks[i];
  }

  ghost predicate KeyAndEquals(s: string, key: string) {
    exists b: string, rest: string :: Blanks(b) && s == key + b + "=" + rest
  }

  lemma EqualsFound(s: string, key: string, i: nat, t: string)
    requires i <= |s| && t == s[i..] && EqualsAfter(s, key, i).Some?
    ensures KeyAndEquals(t, key)
  {
    var after := t[|key|..];
    assert after == s[i + |key|..];
    var n := Indent(after);
    assert after == after[..n] + "=" + after[n + 1..];
    assert t == key + after && t == key + after[..n] + "=" + after[n + 1..];
  }

  lemma EqualsFits(s: string, key: string, i: nat, t: string, b: string, rest: string)
    requires i <= |s| && t == s[i..] && Blanks(b) && t == key + (b + ("=" + rest))
    ensures EqualsAfter(s, key, i).Some?
  {
    var after := b + ("=" + rest);
    assert t[|key|..] == after && t[..|key|] == key;
    IndentIs(b, "=" + rest);
    assert s[i + |key|..] == after && after[|b|] == '=';
    assert s[i + |key| + |b|] == after[|b|];
  }

  lemma {:induction false} AssignedMeans(s: string, key: string, indent: nat)
    requires indent <= |s|
    ensures Assigned(s, key, indent).Some? <==> exists i | 0 <= i <= indent :: EqualsAfter(s, key, i).Some?
    decreases indent
  {
    if indent > 0 {
      AssignedMeans(s, key, indent - 1);
    }
  }

  /** Blanks, the key, blanks and an equals sign, blanks being spaces and tabs. */
  ghost predicate ReadsAsAssignment(s: string, key: string) {
    exists a: string, t: string :: Blanks(a) && s == a + t && KeyAndEquals(t, key)
  }

  lemma LineFound(s: string, key: string, i: nat)
    requires i <= Indent(s) && EqualsAfter(s, key, i).Some?
    ensures ReadsAsAssignment(s, key)
  {
    EqualsFound(s, key, i, s[i..]);
    assert Blanks(s[..i]) && s == s[..i] + s[i..];
  }

  lemma LineFits(s: string, key: string, a: string, t: string, b: string, rest: string)
    requires Blanks(a) && s == a + t && Blanks(b) && t == key + b + "=" + rest
    ensures |a| <= Indent(s) && EqualsAfter(s, key, |a|).Some?
  {
    IndentAtLeast(a, t);
    assert s[|a|..] == t && key + b + "=" + rest == key + (b + ("=" + rest));
    EqualsFits(s, key, |a|, t, b, rest);
  }

  /** A line is stripped exactly when it reads as an assignment to the key, indented or not. */
  lemma AssigningLines(s: string, key: string)
    ensures Assigned(s, key, Indent(s)).Some? <==> ReadsAsAssignment(s, key)
  {
    AssignedMeans(s, key, Indent(s));
    if i :| 0 <= i <= Indent(s) && EqualsAfter(s, key, i).Some? {
      LineFound(s, key, i);
    }
    if ReadsAsAssignment(s, key) {
      var a: string, t: string :| Blanks(a) && s == a + t && KeyAndEquals(t, key);
      var b: string, rest: string :| Blanks(b) && t == key + b + "=" + rest;
      LineFits(s, key, a, t, b, rest);
    }
  }

  // ---------------------------------------------------------------- quoting round trip

  lemma {:induction false} QuotesUndone(s: string)
    ensures UnescapeQuotes(EscapeQuotes(s)) == s
    ensures EscapeQuotes(s) != "" ==> EscapeQuotes(s)[0] != '"'
  {
    if s != "" {
      var rest := EscapeQuotes(s[1..]);
      QuotesUndone(s[1..]);
      if s[0] == '"' {
        assert EscapeQuotes(s)[2..] == rest;
      } else {
        assert EscapeQuotes(s)[1..] == rest;
      }
      assert s == [s[0]] + s[1..];
    }
  }

  lemma {:induction false} BackslashesUndone(s: string)
    ensures HalveBackslashes(DoubleBackslashes(s)) == s
  {
    if s != "" {
      var rest := DoubleBackslashes(s[1..]);
      BackslashesUndone(s[1..]);
      if s[0] == '\\' {
        assert DoubleBackslashes(s)[2..] == rest;
      } else {
        assert DoubleBackslashes(s)[1..] == rest;
      }
      assert s == [s[0]] + s[1..];
    }
  }

  lemma TrimKeeps(s: string)
    requires s != "" && !IsSpace(s[0]) && !IsSpace(s[|s| - 1])
    ensures Trim(s) == s
  {
  }

  /** The two unescape passes, in their order, invert the two escape passes. */
  lemma QuotingRoundTrip(value: string)
    ensures Unquoted(Quoted(value)) == value
  {
    var inner := EscapeQuotes(DoubleBackslashes(value));
    TrimKeeps(Quoted(value));
    assert Quoted(value)[1..|Quoted(value)| - 1] == inner;
    QuotesUndone(DoubleBackslashes(value));
    BackslashesUndone(value);
  }

  /** Nothing in it that an unescape pass would take for an escape. */
  predicate NoEscapes(s: string) {
    forall i | 0 <= i < |s| - 1 && s[i] == '\\' :: s[i + 1] != '\\' && s[i + 1] != '"'
  }

  lemma {:induction false} NothingToUnescape(s: string)
    requires NoEscapes(s)
    ensures UnescapeQuotes(s) == s && HalveBackslashes(s) == s
  {
    if s != "" {
      assert NoEscapes(s[1..]) by {
        assert forall i | 0 <= i < |s[1..]| :: s[1..][i] == s[i + 1];
      }
      NothingToUnescape(s[1..]);
      assert s == [s[0]] + s[1..];
    }
  }

  /** A value between two quotes loses them and no more; any other is taken as it stands, surrounding white space aside. */
  lemma PlainValues(inner: string, raw: string)
    ensures NoEscapes(inner) ==> Unquoted("\"" + inner + "\"") == inner
    ensures var t := Trim(raw); t == "" || t[0] != '"' || t[|t| - 1] != '"' ==> Unquoted(raw) == t
  {
    if NoEscapes(inner) {
      var quoted := "\"" + inner + "\"";
      TrimKeeps(quoted);
      assert quoted[1..|quoted| - 1] == inner;
      NothingToUnescape(inner);
    }
  }

  lemma {:induction false} EscapingKeepsLines(s: string)
    ensures OneLine(s) ==> OneLine(DoubleBackslashes(s)) && OneLine(EscapeQuotes(s))
  {
    if s != "" {
      EscapingKeepsLines(s[1..]);
      assert OneLine(s) ==> OneLine(s[1..]);
    }
  }

  lemma {:induction false} UnescapingKeepsLines(s: string)
    requires OneLine(s)
    ensures OneLine(UnescapeQuotes(s)) && OneLine(HalveBackslashes(s))
    decreases |s|
  {
    if |s| >= 2 {
      UnescapingKeepsLines(s[1..]);
      UnescapingKeepsLines(s[2..]);
    }
  }
}
