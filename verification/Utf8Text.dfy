/**
 Text cleaning as the diagnostics of bridge/internal/handshake/handshake.go need it: invalid UTF-8 and
 control characters become spaces, then surrounding white space is trimmed. Bytes are chars; a char
 over 255 is treated like any other byte that starts no sequence.

 A unit is one well-formed UTF-8 sequence (section 4 of RFC 3629).
 */
module Utf8Text {

  predicate Within(s: string, i: nat, lo: int, hi: int) {
    i < |s| && lo <= s[i] as int <= hi
  }

  predicate Tail(s: string, i: nat) {
    Within(s, i, 0x80, 0xBF)
  }

  /** The length of the well-formed sequence at the start of s, or 0. */
  function Head(s: string): (n: nat)
    ensures n <= |s| && n <= 4
  {
    if s == "" then 0
    else if Within(s, 0, 0x00, 0x7F) then 1
    else if Within(s, 0, 0xC2, 0xDF) && Tail(s, 1) then 2
    else if Within(s, 0, 0xE0, 0xE0) && Within(s, 1, 0xA0, 0xBF) && Tail(s, 2) then 3
    else if Within(s, 0, 0xE1, 0xEC) && Tail(s, 1) && Tail(s, 2) then 3
    else if Within(s, 0, 0xED, 0xED) && Within(s, 1, 0x80, 0x9F) && Tail(s, 2) then 3
    else if Within(s, 0, 0xEE, 0xEF) && Tail(s, 1) && Tail(s, 2) then 3
    else if Within(s, 0, 0xF0, 0xF0) && Within(s, 1, 0x90, 0xBF) && Tail(s, 2) && Tail(s, 3) then 4
    else if Within(s, 0, 0xF1, 0xF3) && Tail(s, 1) && Tail(s, 2) && Tail(s, 3) then 4
    else if Within(s, 0, 0xF4, 0xF4) && Within(s, 1, 0x80, 0x8F) && Tail(s, 2) && Tail(s, 3) then 4
    else 0
  }

  /** Controls and the replacement character U+FFFD. */
  predicate IsBad(unit: string) {
    || (|unit| == 1 && (unit[0] < ' ' || unit[0] == '\U{7F}'))
    || unit == "\U{EF}\U{BF}\U{BD}"
  }

  /** White space that is left once controls are gone. */
  predicate IsSpace(unit: string) {
    || unit == " "
    || (|unit| == 2 && unit[0] == '\U{C2}' && (unit[1] == '\U{85}' || unit[1] == '\U{A0}'))
    || (|unit| == 3
        && (unit == "\U{E1}\U{9A}\U{80}" || unit == "\U{E2}\U{81}\U{9F}" || unit == "\U{E3}\U{80}\U{80}"
            || (unit[0] == '\U{E2}' && unit[1] == '\U{80}'
                && ('\U{80}' <= unit[2] <= '\U{8A}' || unit[2] == '\U{A8}' || unit[2] == '\U{A9}' || unit[2] == '\U{AF}'))))
  }

  /** A run of bytes that start no sequence becomes one space, each bad unit another. */
  function Mapped(s: string, inRun: bool): seq<string>
    decreases |s|
  {
    if s == "" then []
    else
      var n := Head(s);
      if n == 0 then (if inRun then [] else [" "]) + Mapped(s[1..], true)
      else [if IsBad(s[..n]) then " " else s[..n]] + Mapped(s[n..], false)
  }

  function TrimLeft(us: seq<string>): seq<string> {
    if us != [] && IsSpace(us[0]) then TrimLeft(us[1..]) else us
  }

  function TrimRight(us: seq<string>): seq<string> {
    if us != [] && IsSpace(us[|us| - 1]) then TrimRight(us[..|us| - 1]) else us
  }

  function Flatten(us: seq<string>): string {
    if us == [] then "" else us[0] + Flatten(us[1..])
  }

  function CleanUnits(message: string): seq<string> {
    TrimRight(TrimLeft(Mapped(message, false)))
  }

  function Cleaned(message: string): string {
    Flatten(CleanUnits(message))
  }

  // ---------------------------------------------------------------- clean text is a fixed point

  predicate Sound(unit: string) {
    unit != "" && Head(unit) == |unit| && !IsBad(unit)
  }

  predicate AllSound(us: seq<string>) {
    forall i | 0 <= i < |us| :: Sound(us[i])
  }

  /** Trimmed, sound text. */
  predicate Tidy(us: seq<string>) {
    AllSound(us) && (us != [] ==> !IsSpace(us[0]) && !IsSpace(us[|us| - 1]))
  }

  lemma {:induction false} MappedSound(s: string, inRun: bool)
    ensures AllSound(Mapped(s, inRun))
    ensures |Flatten(Mapped(s, inRun))| <= |s|
    decreases |s|
  {
    if s != "" {
      var n := Head(s);
      assert Sound(" ");
      if n == 0 {
        var rest := Mapped(s[1..], true);
        MappedSound(s[1..], true);
        assert ([" "] + rest)[1..] == rest && [] + rest == rest;
      } else {
        MappedSound(s[n..], false);
        assert Mapped(s, inRun)[1..] == Mapped(s[n..], false);
      }
    }
  }

  lemma {:induction false} FlattenConcat(a: seq<string>, b: seq<string>)
    ensures Flatten(a + b) == Flatten(a) + Flatten(b)
    decreases |a|
  {
    if a == [] {
      assert a + b == b;
    } else {
      assert (a + b)[1..] == a[1..] + b;
      FlattenConcat(a[1..], b);
    }
  }

  lemma {:induction false} TrimLeftTidies(us: seq<string>)
    requires AllSound(us)
    ensures AllSound(TrimLeft(us)) && (TrimLeft(us) != [] ==> !IsSpace(TrimLeft(us)[0]))
    ensures |Flatten(TrimLeft(us))| <= |Flatten(us)|
    decreases |us|
  {
    if us != [] && IsSpace(us[0]) {
      TrimLeftTidies(us[1..]);
    }
  }

  lemma {:induction false} TrimRightTidies(us: seq<string>)
    requires AllSound(us) && (us != [] ==> !IsSpace(us[0]))
    ensures Tidy(TrimRight(us))
    ensures |Flatten(TrimRight(us))| <= |Flatten(us)|
    decreases |us|
  {
    if us != [] && IsSpace(us[|us| - 1]) {
      TrimRightTidies(us[..|us| - 1]);
      FlattenConcat(us[..|us| - 1], [us[|us| - 1]]);
      assert us == us[..|us| - 1] + [us[|us| - 1]];
    }
  }

  lemma CleanedIsTidy(message: string)
    ensures Tidy(CleanUnits(message)) && |Cleaned(message)| <= |message|
  {
    MappedSound(message, false);
    TrimLeftTidies(Mapped(message, false));
    TrimRightTidies(TrimLeft(Mapped(message, false)));
  }

  lemma {:induction false} MappedRereads(us: seq<string>)
    requires AllSound(us)
    ensures Mapped(Flatten(us), false) == us
    decreases |us|
  {
    if us != [] {
      var s, rest := Flatten(us), Flatten(us[1..]);
      assert s[..|us[0]|] == us[0] && s[|us[0]|..] == rest;
      MappedRereads(us[1..]);
    }
  }

  /** Cleaning tidy text changes nothing. */
  lemma TidyIsClean(us: seq<string>)
    requires Tidy(us)
    ensures CleanUnits(Flatten(us)) == us && Cleaned(Flatten(us)) == Flatten(us)
  {
    MappedRereads(us);
  }

  // ---------------------------------------------------------------- boundaries

  /** utf8.RuneStart: any byte that is not a continuation byte. */
  predicate RuneStart(c: char) {
    !(0x80 <= c as int <= 0xBF)
  }

  lemma SoundStarts(unit: string)
    requires Sound(unit)
    ensures RuneStart(unit[0]) && forall i | 1 <= i < |unit| :: !RuneStart(unit[i])
    ensures '\n' !in unit
  {
  }

  predicate Boundary(s: string, k: nat) {
    k <= |s| && (k == 0 || k == |s| || RuneStart(s[k]))
  }

  /** A boundary of sound text falls between two units. */
  lemma {:induction false} CutBetweenUnits(us: seq<string>, k: nat) returns (j: nat)
    requires AllSound(us) && Boundary(Flatten(us), k)
    ensures j <= |us| && Flatten(us[..j]) == Flatten(us)[..k]
    ensures k > 0 ==> j > 0
    decreases |us|
  {
    if k == 0 {
      j := 0;
    } else {
      var unit, rest := us[0], Flatten(us[1..]);
      var s := Flatten(us);
      SoundStarts(unit);
      assert s == unit + rest;
      assert forall i | 0 <= i < |unit| :: s[i] == unit[i];
      assert |unit| <= k < |s| ==> s[k] == rest[k - |unit|];
      var m := CutBetweenUnits(us[1..], k - |unit|);
      j := m + 1;
      assert us[..j][1..] == us[1..][..m] && us[..j][0] == unit;
      assert s[..k] == unit + rest[..k - |unit|];
    }
  }

  lemma {:induction false} NoNewlines(us: seq<string>)
    requires AllSound(us)
    ensures '\n' !in Flatten(us)
    decreases |us|
  {
    if us != [] {
      SoundStarts(us[0]);
      NoNewlines(us[1..]);
    }
  }

  /** The units of printable ASCII text. */
  function Letters(s: string): seq<string> {
    seq(|s|, i requires 0 <= i < |s| => [s[i]])
  }

  predicate Printable(s: string) {
    forall i | 0 <= i < |s| :: ' ' <= s[i] <= '~'
  }

  lemma {:induction false} LettersSound(s: string)
    requires Printable(s)
    ensures AllSound(Letters(s)) && Flatten(Letters(s)) == s
    decreases |s|
  {
    if s != "" {
      LettersSound(s[1..]);
      assert Letters(s)[1..] == Letters(s[1..]);
      assert s == [s[0]] + s[1..];
    }
  }
}
