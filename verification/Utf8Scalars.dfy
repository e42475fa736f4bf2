/**
 What Utf8Text's byte tables mean in code points: the sequences are those that section 3 of RFC 3629 computes, and
 what counts as bad or as white space is a set of characters.
 */
module Utf8Scalars {
  import opened Utf8Text

  /** Every code point but the surrogates. */
  predicate Scalar(c: int) {
    0 <= c < 0xD800 || 0xE000 <= c <= 0x10FFFF
  }

  function Byte(n: int): char
    requires 0 <= n < 256
  {
    n as char
  }

  /** The bytes of a code point, six bits to each continuation byte. */
  function Utf8(c: int): (s: string)
    requires Scalar(c)
    ensures 1 <= |s| <= 4
  {
    if c < 0x80 then [Byte(c)]
    else if c < 0x800 then [Byte(0xC0 + c / 64), Byte(0x80 + c % 64)]
    else if c < 0x10000 then [Byte(0xE0 + c / 4096), Byte(0x80 + c / 64 % 64), Byte(0x80 + c % 64)]
    else [Byte(0xF0 + c / 262144), Byte(0x80 + c / 4096 % 64), Byte(0x80 + c / 64 % 64), Byte(0x80 + c % 64)]
  }

  /** The number in the low bits of a byte. */
  function Low(c: char, marker: int): int {
    c as int - marker
  }

  function ScalarOf(unit: string): int
    requires 1 <= |unit| <= 4
  {
    if |unit| == 1 then unit[0] as int
    else if |unit| == 2 then 64 * Low(unit[0], 0xC0) + Low(unit[1], 0x80)
    else if |unit| == 3 then 4096 * Low(unit[0], 0xE0) + 64 * Low(unit[1], 0x80) + Low(unit[2], 0x80)
    else 262144 * Low(unit[0], 0xF0) + 4096 * Low(unit[1], 0x80) + 64 * Low(unit[2], 0x80) + Low(unit[3], 0x80)
  }

  /** The sequences found are exactly the encodings of code points. */
  lemma HeadEncodes(c: int, rest: string)
    requires Scalar(c)
    ensures Head(Utf8(c) + rest) == |Utf8(c)| && ScalarOf(Utf8(c)) == c
  {
    var s := Utf8(c) + rest;
    assert s[..|Utf8(c)|] == Utf8(c) && forall i | 0 <= i < |Utf8(c)| :: s[i] == Utf8(c)[i];
    if 0x80 <= c < 0x800 {
      assert c == 64 * (c / 64) + c % 64;
    } else if 0x800 <= c < 0x10000 {
      Split64(c / 64);
      assert c == 64 * (c / 64) + c % 64 && c / 64 / 64 == c / 4096;
    } else if 0x10000 <= c {
      Split64(c / 4096);
      assert c == 64 * (c / 64) + c % 64 && c / 64 == 64 * (c / 4096) + c / 64 % 64 && c / 4096 / 64 == c / 262144;
    }
  }

  lemma Split64(n: int)
    requires n >= 0
    ensures n == 64 * (n / 64) + n % 64 && 0 <= n % 64 < 64
  {
  }

  lemma TwoBytes(a: char, b: char)
    requires 0xC2 <= a as int <= 0xDF && 0x80 <= b as int <= 0xBF
    ensures var c := ScalarOf([a, b]); Scalar(c) && Utf8(c) == [a, b]
  {
    Digits64(Low(a, 0xC0), Low(b, 0x80));
  }

  lemma ThreeBytes(a: char, b: char, c: char)
    requires 0xE0 <= a as int <= 0xEF && 0x80 <= b as int <= 0xBF && 0x80 <= c as int <= 0xBF
    requires a as int == 0xE0 ==> b as int >= 0xA0
    requires a as int == 0xED ==> b as int <= 0x9F
    ensures var n := ScalarOf([a, b, c]); Scalar(n) && Utf8(n) == [a, b, c]
  {
    Digits64(Low(a, 0xE0), Low(b, 0x80));
    Digits64(64 * Low(a, 0xE0) + Low(b, 0x80), Low(c, 0x80));
  }

  lemma FourBytes(a: char, b: char, c: char, d: char)
    requires 0xF0 <= a as int <= 0xF4 && 0x80 <= b as int <= 0xBF && 0x80 <= c as int <= 0xBF && 0x80 <= d as int <= 0xBF
    requires a as int == 0xF0 ==> b as int >= 0x90
    requires a as int == 0xF4 ==> b as int <= 0x8F
    ensures var n := ScalarOf([a, b, c, d]); Scalar(n) && Utf8(n) == [a, b, c, d]
  {
    Digits64(Low(a, 0xF0), Low(b, 0x80));
    Digits64(64 * Low(a, 0xF0) + Low(b, 0x80), Low(c, 0x80));
    Digits64(4096 * Low(a, 0xF0) + 64 * Low(b, 0x80) + Low(c, 0x80), Low(d, 0x80));
  }

  lemma HeadDecodes(s: string)
    requires Head(s) > 0
    ensures var unit := s[..Head(s)]; Scalar(ScalarOf(unit)) && Utf8(ScalarOf(unit)) == unit
  {
    var n := Head(s);
    if n == 1 {
      assert s[..1] == [s[0]];
    } else if n == 2 {
      assert s[..2] == [s[0], s[1]];
      TwoBytes(s[0], s[1]);
    } else if n == 3 {
      assert s[..3] == [s[0], s[1], s[2]];
      ThreeBytes(s[0], s[1], s[2]);
    } else {
      assert s[..4] == [s[0], s[1], s[2], s[3]];
      FourBytes(s[0], s[1], s[2], s[3]);
    }
  }

  lemma Digits64(high: int, low: int)
    requires high >= 0 && 0 <= low < 64
    ensures (64 * high + low) / 64 == high && (64 * high + low) % 64 == low
  {
  }

  /** Controls below the space, delete, and the replacement character. */
  predicate BadScalar(c: int) {
    0 <= c < 0x20 || c == 0x7F || c == 0xFFFD
  }

  /** Unicode white space that is no such control. */
  predicate SpaceScalar(c: int) {
    || c == 0x20 || c == 0x85 || c == 0xA0 || c == 0x1680 || 0x2000 <= c <= 0x200A
    || c == 0x2028 || c == 0x2029 || c == 0x202F || c == 0x205F || c == 0x3000
  }

  lemma BadIsScalar(c: int)
    requires Scalar(c)
    ensures IsBad(Utf8(c)) <==> BadScalar(c)
  {
    HeadEncodes(c, "");
    assert ScalarOf("\U{EF}\U{BF}\U{BD}") == 0xFFFD;
  }

  lemma SpaceIsScalar(c: int)
    requires Scalar(c)
    ensures IsSpace(Utf8(c)) <==> SpaceScalar(c)
  {
    HeadEncodes(c, "");
    assert ScalarOf("\U{E1}\U{9A}\U{80}") == 0x1680 && ScalarOf("\U{E2}\U{81}\U{9F}") == 0x205F;
    assert ScalarOf("\U{E3}\U{80}\U{80}") == 0x3000 && ScalarOf(" ") == 0x20;
  }

  predicate Scalars(text: seq<int>) {
    forall i | 0 <= i < |text| :: Scalar(text[i])
  }

  function Bytes(text: seq<int>): string
    requires Scalars(text)
  {
    if text == [] then "" else Utf8(text[0]) + Bytes(text[1..])
  }

  function Blanked(text: seq<int>): seq<int> {
    seq(|text|, i requires 0 <= i < |text| => if BadScalar(text[i]) then 0x20 else text[i])
  }

  function Units(text: seq<int>): seq<string>
    requires Scalars(text)
  {
    seq(|text|, i requires 0 <= i < |text| => Utf8(text[i]))
  }

  /** Well-formed text keeps every character in its place, a space standing in for each bad one. */
  lemma {:induction false} WellFormedIsBlanked(text: seq<int>)
    requires Scalars(text)
    ensures Scalars(Blanked(text)) && Mapped(Bytes(text), false) == Units(Blanked(text))
    decreases |text|
  {
    if text != [] {
      var c, rest := text[0], Bytes(text[1..]);
      var s := Bytes(text);
      HeadEncodes(c, rest);
      BadIsScalar(c);
      WellFormedIsBlanked(text[1..]);
      assert s[..|Utf8(c)|] == Utf8(c) && s[|Utf8(c)|..] == rest;
      assert Utf8(0x20) == " ";
      assert Units(Blanked(text)) == [Units(Blanked(text))[0]] + Units(Blanked(text[1..]));
    }
  }

  /** A run of bytes that start no sequence is one space, however long. */
  lemma {:induction false} InvalidRunIsOneSpace(run: string, rest: string, inRun: bool)
    requires run != "" && forall i | 0 <= i < |run| :: Head(run[i..] + rest) == 0
    requires rest == "" || Head(rest) > 0
    ensures Mapped(run + rest, inRun) == (if inRun then [] else [" "]) + Mapped(rest, false)
    decreases |run|
  {
    var s := run + rest;
    assert run[0..] == run && s[1..] == run[1..] + rest;
    if |run| > 1 {
      forall i | 0 <= i < |run[1..]| ensures Head(run[1..][i..] + rest) == 0 {
        assert run[1..][i..] == run[i + 1..];
      }
      InvalidRunIsOneSpace(run[1..], rest, true);
    } else {
      assert s[1..] == rest;
      assert Mapped(rest, true) == Mapped(rest, false);
    }
  }

  predicate AllSpaces(us: seq<string>) {
    forall i | 0 <= i < |us| :: IsSpace(us[i])
  }

  lemma {:induction false} LeftCut(us: seq<string>) returns (i: nat)
    ensures i <= |us| && TrimLeft(us) == us[i..] && AllSpaces(us[..i])
    decreases |us|
  {
    i := 0;
    if us != [] && IsSpace(us[0]) {
      i := LeftCut(us[1..]);
      i := i + 1;
      assert us[..i] == [us[0]] + us[1..][..i - 1];
    }
  }

  lemma {:induction false} RightCut(us: seq<string>) returns (j: nat)
    ensures j <= |us| && TrimRight(us) == us[..j] && AllSpaces(us[j..])
    decreases |us|
  {
    j := |us|;
    if us != [] && IsSpace(us[|us| - 1]) {
      var front := us[..|us| - 1];
      j := RightCut(front);
      assert us[j..] == front[j..] + [us[|us| - 1]] && us[..j] == front[..j];
    }
  }

  /** Trimming takes white space off both ends and nothing else. */
  lemma OnlySpacesTrimmed(message: string) returns (i: nat, j: nat)
    ensures var us := Mapped(message, false);
            i <= j <= |us| && CleanUnits(message) == us[i..j] && AllSpaces(us[..i]) && AllSpaces(us[j..])
  {
    var us := Mapped(message, false);
    i := LeftCut(us);
    var k := RightCut(us[i..]);
    j := i + k;
    assert us[i..][..k] == us[i..j] && us[i..][k..] == us[j..];
  }
}
