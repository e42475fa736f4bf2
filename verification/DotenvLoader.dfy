/**
 loadDotenvFileIntoProcess of src/utils/dotenv.ts, and what it takes from a file the multi-key writer
 wrote. The loader splits at newlines only and trims all white space; the writer strips lines as regular
 expressions see them, indented with spaces and tabs.
 */
module DotenvLoader {
  import opened JsText
  import opened Options
  import opened Dotenv
  import opened DotenvLines
  import opened DotenvTheorems

  type Env = map<string, string>

  /** The text split at newlines. */
  function Rows(s: string): (rows: seq<string>)
    ensures rows != []
  {
    if s == "" then [""]
    else
      var rest := Rows(s[1..]);
      if s[0] == '\n' then [""] + rest else [[s[0]] + rest[0]] + rest[1..]
  }

  function IndexOf(s: string, c: char): (i: int)
    ensures -1 <= i < |s| && (i >= 0 ==> s[i] == c)
    ensures forall j | 0 <= j < (if i >= 0 then i else |s|) :: s[j] != c
  {
    if s == "" then -1 else if s[0] == c then 0 else var i := IndexOf(s[1..], c); if i < 0 then -1 else i + 1
  }

  function EntryOf(trimmed: string): Option<(string, string)> {
    if trimmed == "" || trimmed[0] == '#' || IndexOf(trimmed, '=') < 1 then None
    else Some((trimmed[..IndexOf(trimmed, '=')], Unquoted(trimmed[IndexOf(trimmed, '=') + 1..])))
  }

  /** What one row assigns; blank rows, comments and rows without a name assign nothing. */
  function Entry(row: string): Option<(string, string)> {
    EntryOf(Trim(row))
  }

  type Reader = string -> Option<(string, string)>

  function Entries(rows: seq<string>, read: Reader): seq<Option<(string, string)>> {
    seq(|rows|, i requires 0 <= i < |rows| => read(rows[i]))
  }

  function LoadEntry(env: Env, entry: Option<(string, string)>, shouldLoad: string -> bool, overwrite: bool): Env {
    if entry.None? || !shouldLoad(entry.value.0) || (!overwrite && entry.value.0 in env) then env
    else env[entry.value.0 := entry.value.1]
  }

  function LoadEntries(env: Env, entries: seq<Option<(string, string)>>, shouldLoad: string -> bool, overwrite: bool): Env
    decreases |entries|
  {
    if entries == [] then env
    else LoadEntries(LoadEntry(env, entries[0], shouldLoad, overwrite), entries[1..], shouldLoad, overwrite)
  }

  function Load(env: Env, text: string, shouldLoad: string -> bool, overwrite: bool): Env {
    LoadEntries(env, Entries(Rows(text), Entry), shouldLoad, overwrite)
  }

  class Process {
    var env: Env

    /** The loop body, for one row. */
    method LoadRow(row: string, shouldLoad: string -> bool, overwrite: bool)
      modifies this
      ensures env == LoadEntry(old(env), Entry(row), shouldLoad, overwrite)
    {
      var entry := Entry(row);
      if entry.None? {
        return;
      }
      var (key, value) := entry.value;
      if !shouldLoad(key) {
        return;
      }
      if !overwrite && key in env {
        return;
      }
      env := env[key := value];
    }

    method LoadDotenvFile(file: Option<string>, shouldLoad: string -> bool, overwrite: bool)
      modifies this
      ensures env == if file.None? then old(env) else Load(old(env), file.value, shouldLoad, overwrite)
    {
      if file.None? {
        return;
      }
      var rows := Rows(file.value);
      ghost var entries := Entries(rows, Entry);
      for i := 0 to |rows|
        invariant LoadEntries(old(env), entries, shouldLoad, overwrite) == LoadEntries(env, entries[i..], shouldLoad, overwrite)
      {
        assert entries[i..][0] == Entry(rows[i]) && entries[i..][1..] == entries[i + 1..];
        LoadRow(rows[i], shouldLoad, overwrite);
      }
    }
  }

  // ---------------------------------------------------------------- which row decides

  function Assigning(entry: Option<(string, string)>, key: string): Option<string> {
    if entry.Some? && entry.value.0 == key then Some(entry.value.1) else None
  }

  function Or(a: Option<string>, b: Option<string>): Option<string> {
    if a.Some? then a else b
  }

  function FirstEntry(entries: seq<Option<(string, string)>>, key: string): Option<string>
    decreases |entries|
  {
    if entries == [] then None else Or(Assigning(entries[0], key), FirstEntry(entries[1..], key))
  }

  function LastEntry(entries: seq<Option<(string, string)>>, key: string): Option<string>
    decreases |entries|
  {
    if entries == [] then None else Or(LastEntry(entries[1..], key), Assigning(entries[0], key))
  }

  function FirstRow(text: string, key: string): Option<string> {
    FirstEntry(Entries(Rows(text), Entry), key)
  }

  function LastRow(text: string, key: string): Option<string> {
    LastEntry(Entries(Rows(text), Entry), key)
  }

  /** The last row wins when overwriting; otherwise what is defined stays, and then the first row wins. */
  lemma {:induction false} RowThatDecides(env: Env, entries: seq<Option<(string, string)>>, shouldLoad: string -> bool,
                                          overwrite: bool, key: string)
    ensures Lookup(LoadEntries(env, entries, shouldLoad, overwrite), key)
            == if !shouldLoad(key) then Lookup(env, key)
               else if overwrite then Or(LastEntry(entries, key), Lookup(env, key))
               else Or(Lookup(env, key), FirstEntry(entries, key))
    decreases |entries|
  {
    if entries != [] {
      RowThatDecides(LoadEntry(env, entries[0], shouldLoad, overwrite), entries[1..], shouldLoad, overwrite, key);
    }
  }

  lemma {:induction false} EntriesAfter(a: seq<Option<(string, string)>>, b: seq<Option<(string, string)>>, key: string)
    ensures FirstEntry(a + b, key) == Or(FirstEntry(a, key), FirstEntry(b, key))
    ensures LastEntry(a + b, key) == Or(LastEntry(b, key), LastEntry(a, key))
    decreases |a|
  {
    if a == [] {
      assert a + b == b;
    } else {
      EntriesAfter(a[1..], b, key);
      assert (a + b)[1..] == a[1..] + b;
    }
  }

  function Prepend(c: char, rows: seq<string>): seq<string>
    requires rows != []
  {
    if c == '\n' then [""] + rows else [[c] + rows[0]] + rows[1..]
  }

  lemma RowsOfFirst(c: char, s: string)
    ensures Rows([c] + s) == Prepend(c, Rows(s))
  {
    assert ([c] + s)[1..] == s;
  }

  lemma PrependAbove(c: char, a: seq<string>, b: seq<string>)
    requires a != []
    ensures Prepend(c, a + b) == Prepend(c, a) + b
  {
    assert (a + b)[1..] == a[1..] + b;
  }

  lemma {:induction false} RowsAfter(a: string, b: string)
    ensures Rows(a + ("\n" + b)) == Rows(a) + Rows(b)
    decreases |a|
  {
    var below := "\n" + b;
    if a == "" {
      assert a + below == ['\n'] + b;
      RowsOfFirst('\n', b);
    } else {
      var c, x := a[0], a[1..];
      RowsAfter(x, b);
      assert a == [c] + x;
      Associate([c], x, below);
      RowsOfFirst(c, x + below);
      RowsOfFirst(c, x);
      PrependAbove(c, Rows(x), Rows(b));
    }
  }

  lemma EntriesOfRows(a: string, b: string, read: Reader, key: string)
    ensures FirstEntry(Entries(Rows(a + ("\n" + b)), read), key)
            == Or(FirstEntry(Entries(Rows(a), read), key), FirstEntry(Entries(Rows(b), read), key))
    ensures LastEntry(Entries(Rows(a + ("\n" + b)), read), key)
            == Or(LastEntry(Entries(Rows(b), read), key), LastEntry(Entries(Rows(a), read), key))
  {
    RowsAfter(a, b);
    assert Entries(Rows(a) + Rows(b), read) == Entries(Rows(a), read) + Entries(Rows(b), read);
    EntriesAfter(Entries(Rows(a), read), Entries(Rows(b), read), key);
  }

  /** The rows of two texts one above the other. */
  lemma TextsAfter(a: string, b: string, key: string)
    ensures FirstRow(a + ("\n" + b), key) == Or(FirstRow(a, key), FirstRow(b, key))
    ensures LastRow(a + ("\n" + b), key) == Or(LastRow(b, key), LastRow(a, key))
  {
    EntriesOfRows(a, b, Entry, key);
  }

  lemma {:induction false} OneRow(s: string)
    requires '\n' !in s
    ensures Rows(s) == [s]
  {
    if s != "" {
      OneRow(s[1..]);
      assert [s[0]] + s[1..] == s;
    }
  }

  lemma EntriesOfRow(s: string, read: Reader, key: string)
    requires '\n' !in s
    ensures FirstEntry(Entries(Rows(s), read), key) == Assigning(read(s), key) == LastEntry(Entries(Rows(s), read), key)
  {
    OneRow(s);
    assert Entries([s], read) == [read(s)];
    assert [read(s)][1..] == [];
  }

  lemma OneEntry(s: string, key: string)
    requires '\n' !in s
    ensures FirstRow(s, key) == Assigning(Entry(s), key) == LastRow(s, key)
  {
    EntriesOfRow(s, Entry, key);
  }

  // ---------------------------------------------------------------- written lines

  /** A name the loader can see. */
  predicate Loadable(key: string) {
    PlainKey(key) && key != "" && key[0] != '#'
  }

  lemma KeyEnds(key: string, tail: string)
    requires PlainKey(key)
    ensures IndexOf(key + "=" + tail, '=') == |key|
  {
    var s := key + "=" + tail;
    assert s[|key|] == '=';
    assert forall i | 0 <= i < |key| :: s[i] == key[i];
  }

  lemma OneLineJoin(a: string, b: string)
    requires OneLine(a) && OneLine(b)
    ensures OneLine(a + b)
  {
  }

  lemma LineParts(key: string, value: string)
    requires PlainKey(key) && OneLine(value)
    ensures var line := Line(key, value);
            && '\n' !in line
            && Trim(line) == line
            && line == key + "=" + Quoted(value)
  {
    var line := Line(key, value);
    QuotedKeepsLines(value);
    OneLineJoin(key, "=");
    OneLineJoin(key + "=", Quoted(value));
    assert line[|line| - 1] == '"';
    assert line[0] == if key != "" then key[0] else '=';
    TrimKeeps(line);
  }

  lemma EntryOfLine(key: string, tail: string)
    requires PlainKey(key)
    ensures EntryOf(key + "=" + tail) == if key == "" || key[0] == '#' then None else Some((key, Unquoted(tail)))
  {
    var s := key + "=" + tail;
    KeyEnds(key, tail);
    assert s[..|key|] == key && s[|key| + 1..] == tail;
    assert key != "" ==> s[0] == key[0];
  }

  lemma LineEntry(key: string, value: string, wanted: string)
    requires PlainKey(key) && Loadable(wanted) && OneLine(value)
    ensures Assigning(Entry(Line(key, value)), wanted) == if key == wanted then Some(value) else None
  {
    LineParts(key, value);
    EntryOfLine(key, Quoted(value));
    QuotingRoundTrip(value);
  }

  lemma WrittenRow(key: string, value: string, wanted: string)
    requires PlainKey(key) && Loadable(wanted) && OneLine(value)
    ensures var own := if key == wanted then Some(value) else None;
            FirstRow(Line(key, value), wanted) == own == LastRow(Line(key, value), wanted)
  {
    LineParts(key, value);
    OneEntry(Line(key, value), wanted);
    LineEntry(key, value, wanted);
  }

  function ValueFor(updates: seq<Update>, key: string): Option<string>
    decreases |updates|
  {
    if updates == [] then None
    else if updates[0].key == key then updates[0].value else ValueFor(updates[1..], key)
  }

  lemma NothingRow(key: string)
    ensures FirstRow("", key) == None == LastRow("", key)
  {
    OneEntry("", key);
    assert Trim("") == "";
  }

  lemma {:induction false} BlockRows(updates: seq<Update>, key: string)
    requires PlainKeys(updates) && DistinctKeys(updates) && OneLineValues(updates) && Loadable(key)
    ensures FirstRow(Block(updates), key) == ValueFor(updates, key) == LastRow(Block(updates), key)
    ensures !Names(updates, key) ==> ValueFor(updates, key) == None
    decreases |updates|
  {
    NothingRow(key);
    if updates != [] {
      var u := updates[0];
      BlockRows(updates[1..], key);
      NamesFirst(updates, key);
      assert u.key == key ==> !Names(updates[1..], key);
      if u.value.Some? {
        WrittenRow(u.key, u.value.value, key);
        TextsAfter(Line(u.key, u.value.value), Block(updates[1..]), key);
      }
    }
  }

  lemma {:induction false} ValueForOwn(updates: seq<Update>, i: nat)
    requires DistinctKeys(updates) && i < |updates|
    ensures ValueFor(updates, updates[i].key) == updates[i].value
    decreases i
  {
    if i > 0 {
      ValueForOwn(updates[1..], i - 1);
    }
  }

  lemma WrittenRows(file: Option<string>, updates: seq<Update>, key: string)
    requires PlainKeys(updates) && DistinctKeys(updates) && OneLineValues(updates) && Loadable(key)
    ensures var text, base, value := Written(file, updates), Base(file, updates), ValueFor(updates, key);
            && FirstRow(text, key) == Or(FirstRow(base, key), value)
            && LastRow(text, key) == Or(value, LastRow(base, key))
  {
    var base, block := Base(file, updates), Block(updates);
    BlockRows(updates, key);
    if base == "" {
      AppendedToNothing(updates);
      NothingRow(key);
      assert Written(file, updates) == block;
    } else {
      AppendedIsBlock(base, updates);
      assert Written(file, updates) == base + ("\n" + block);
      TextsAfter(base, block, key);
    }
  }

  /**
   Loading a written file: with overwrite every written value goes live; without, it does unless the
   name is already defined or an older row for it escaped the stripping.
   */
  lemma LoadedAfterWriting(file: Option<string>, updates: seq<Update>, i: nat, env: Env, shouldLoad: string -> bool, overwrite: bool)
    requires PlainKeys(updates) && DistinctKeys(updates) && OneLineValues(updates)
    requires i < |updates| && updates[i].value.Some? && Loadable(updates[i].key) && shouldLoad(updates[i].key)
    ensures var key := updates[i].key;
            var loaded := Lookup(Load(env, Written(file, updates), shouldLoad, overwrite), key);
            && (overwrite ==> loaded == updates[i].value)
            && (!overwrite && key !in env ==> loaded == Or(FirstRow(Base(file, updates), key), updates[i].value))
  {
    var key := updates[i].key;
    RowThatDecides(env, Entries(Rows(Written(file, updates)), Entry), shouldLoad, overwrite, key);
    WrittenRows(file, updates, key);
    ValueForOwn(updates, i);
  }

  // ---------------------------------------------------------------- rows that say nothing

  /** Nothing but white space, a comment, no equals sign, or nothing in front of the first one. */
  predicate Silent(row: string) {
    var t := Trim(row);
    t == "" || t[0] == '#' || t[0] == '=' || '=' !in t
  }

  lemma SilentAssignsNothing(row: string)
    ensures Entry(row).None? <==> Silent(row)
  {
    assert IndexOf(Trim(row), '=') >= 0 <==> '=' in Trim(row);
  }

  /** What a row assigns: a name without an equals sign or leading "#", then one, then the value. */
  ghost predicate Reads(trimmed: string, key: string, value: string) {
    && key != "" && '=' !in key && key[0] != '#'
    && exists raw: string :: trimmed == key + "=" + raw && value == Unquoted(raw)
  }

  lemma NameInFront(t: string, at: nat)
    requires at < |t| && at == IndexOf(t, '=')
    ensures t == t[..at] + "=" + t[at + 1..] && '=' !in t[..at]
  {
  }

  lemma AssignsReads(t: string, key: string, value: string)
    requires EntryOf(t) == Some((key, value))
    ensures Reads(t, key, value)
  {
    var at := IndexOf(t, '=');
    NameInFront(t, at);
    assert key == t[..at] && key[0] == t[0];
  }

  lemma RowsThatAssign(row: string, key: string, value: string)
    ensures Entry(row) == Some((key, value)) <==> Reads(Trim(row), key, value)
  {
    var t := Trim(row);
    if EntryOf(t) == Some((key, value)) {
      AssignsReads(t, key, value);
    }
    if Reads(t, key, value) {
      var raw :| t == key + "=" + raw && value == Unquoted(raw);
      AssigningRow(t, key, raw);
    }
  }

  lemma AssigningRow(t: string, key: string, raw: string)
    requires t == key + "=" + raw && key != "" && '=' !in key && key[0] != '#'
    ensures EntryOf(t) == Some((key, Unquoted(raw)))
  {
    assert t[0] == key[0] && t[|key|] == '=' && forall i | 0 <= i < |key| :: t[i] == key[i];
    assert IndexOf(t, '=') == |key|;
    assert t[..|key|] == key && t[|key| + 1..] == raw;
  }

  /** A file of silent rows leaves the environment alone. */
  lemma {:induction false} SilentRowsLoadNothing(env: Env, rows: seq<string>, shouldLoad: string -> bool, overwrite: bool)
    requires forall i | 0 <= i < |rows| :: Silent(rows[i])
    ensures LoadEntries(env, Entries(rows, Entry), shouldLoad, overwrite) == env
    decreases |rows|
  {
    if rows != [] {
      SilentAssignsNothing(rows[0]);
      EntriesRest(rows);
      SilentRowsLoadNothing(env, rows[1..], shouldLoad, overwrite);
    }
  }

  lemma EntriesRest(rows: seq<string>)
    requires rows != []
    ensures var all := Entries(rows, Entry); all != [] && all[0] == Entry(rows[0]) && all[1..] == Entries(rows[1..], Entry)
  {
  }
}
