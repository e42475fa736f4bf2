/**
 The base64 text of section 4 of RFC 4648, and isCanonicalBase64 of
 src/lib/local-secret-vault/crypto.ts, which accepts a text when decoding it leniently and encoding the
 bytes again gives the text back.
 */
module Base64 {

  type Byte = x: int | 0 <= x < 256

  type Bytes = seq<Byte>

  type Sextet = x: int | 0 <= x < 64

  // ---------------------------------------------------------------- bits

  /** Three bytes as four sextets; one or two left over fill two or three, the unused bits zero. */
  function Sextets(b: Bytes): (v: seq<Sextet>)
  {
    if b == [] then []
    else if |b| == 1 then [b[0] / 4, b[0] % 4 * 16]
    else if |b| == 2 then [b[0] / 4, b[0] % 4 * 16 + b[1] / 16, b[1] % 16 * 4]
    else [b[0] / 4, b[0] % 4 * 16 + b[1] / 16, b[1] % 16 * 4 + b[2] / 64, b[2] % 64] + Sextets(b[3..])
  }

  function First(v0: Sextet, v1: Sextet): Byte {
    v0 * 4 + v1 / 16
  }

  function Second(v1: Sextet, v2: Sextet): Byte {
    v1 % 16 * 16 + v2 / 4
  }

  function Third(v2: Sextet, v3: Sextet): Byte {
    v2 % 4 * 64 + v3
  }

  /** The bytes a run of sextets fills; bits that fill no byte are dropped. */
  function Octets(v: seq<Sextet>): (b: Bytes)
  {
    if |v| < 2 then []
    else if |v| == 2 then [First(v[0], v[1])]
    else if |v| == 3 then [First(v[0], v[1]), Second(v[1], v[2])]
    else [First(v[0], v[1]), Second(v[1], v[2]), Third(v[2], v[3])] + Octets(v[4..])
  }

  /** A run that ends with a byte, the bits left over zero. */
  predicate ZeroPadded(v: seq<Sextet>) {
    if |v| >= 4 then ZeroPadded(v[4..])
    else if |v| == 3 then v[2] % 4 == 0
    else if |v| == 2 then v[1] % 16 == 0
    else |v| == 0
  }

  /** The first two bytes of a group, and its third. */
  lemma BytesSplit(b0: Byte, b1: Byte, b2: Byte)
    ensures var v1, v2 := b0 % 4 * 16 + b1 / 16, b1 % 16 * 4 + b2 / 64;
            && v1 / 16 == b0 % 4 && v1 % 16 == b1 / 16
            && v2 / 4 == b1 % 16 && v2 % 4 == b2 / 64
  {
  }

  lemma SextetsSplit(v0: Sextet, v1: Sextet, v2: Sextet, v3: Sextet)
    ensures First(v0, v1) / 4 == v0 && First(v0, v1) % 4 == v1 / 16
    ensures Second(v1, v2) / 16 == v1 % 16 && Second(v1, v2) % 16 == v2 / 4
    ensures Third(v2, v3) / 64 == v2 % 4 && Third(v2, v3) % 64 == v3
  {
  }

  lemma {:induction false} OctetsOfSextets(b: Bytes)
    ensures Octets(Sextets(b)) == b
    decreases |b|
  {
    if |b| == 1 {
      BytesSplit(b[0], 0, 0);
    } else if |b| == 2 {
      BytesSplit(b[0], b[1], 0);
    } else if |b| >= 3 {
      BytesSplit(b[0], b[1], b[2]);
      OctetsOfSextets(b[3..]);
      assert Sextets(b)[4..] == Sextets(b[3..]);
      assert b == [b[0], b[1], b[2]] + b[3..];
    }
  }

  lemma GroupAgain(v0: Sextet, v1: Sextet, v2: Sextet, v3: Sextet, rest: Bytes)
    ensures Sextets([First(v0, v1), Second(v1, v2), Third(v2, v3)] + rest) == [v0, v1, v2, v3] + Sextets(rest)
  {
    var b: Bytes := [First(v0, v1), Second(v1, v2), Third(v2, v3)] + rest;
    SextetsSplit(v0, v1, v2, v3);
    assert b[3..] == rest;
  }

  /** What one or two bytes left over are filled from. */
  lemma RestAgain(v0: Sextet, v1: Sextet, v2: Sextet)
    ensures Sextets([First(v0, v1)]) == [v0, v1] <==> v1 % 16 == 0
    ensures Sextets([First(v0, v1), Second(v1, v2)]) == [v0, v1, v2] <==> v2 % 4 == 0
  {
    SextetsSplit(v0, v1, v2, 0);
    assert v1 / 16 * 16 == v1 <==> v1 % 16 == 0;
    assert v2 / 4 * 4 == v2 <==> v2 % 4 == 0;
  }

  lemma {:induction false} SextetsOfOctets(v: seq<Sextet>)
    ensures Sextets(Octets(v)) == v <==> ZeroPadded(v)
    decreases |v|
  {
    if |v| >= 4 {
      var rest := Octets(v[4..]);
      GroupAgain(v[0], v[1], v[2], v[3], rest);
      SextetsOfOctets(v[4..]);
      assert v == [v[0], v[1], v[2], v[3]] + v[4..];
      assert ([v[0], v[1], v[2], v[3]] + Sextets(rest))[4..] == Sextets(rest);
    } else if |v| == 3 {
      RestAgain(v[0], v[1], v[2]);
      assert v == [v[0], v[1], v[2]];
    } else if |v| == 2 {
      RestAgain(v[0], v[1], 0);
      assert v == [v[0], v[1]];
    }
  }

  lemma {:induction false} SextetsLength(b: Bytes)
    ensures |Sextets(b)| % 4 != 1 && (b != [] ==> |Sextets(b)| > 0)
    decreases |b|
  {
    if |b| >= 3 {
      SextetsLength(b[3..]);
    }
  }

  // ---------------------------------------------------------------- text

  function Symbol(v: Sextet): char {
    if v < 26 then 'A' + v as char
    else if v < 52 then 'a' + (v - 26) as char
    else if v < 62 then '0' + (v - 52) as char
    else if v == 62 then '+' else '/'
  }

  predicate IsSymbol(c: char) {
    'A' <= c <= 'Z' || 'a' <= c <= 'z' || '0' <= c <= '9' || c == '+' || c == '/'
  }

  function Value(c: char): Sextet
    requires IsSymbol(c)
  {
    if 'A' <= c <= 'Z' then c as int - 'A' as int
    else if 'a' <= c <= 'z' then c as int - 'a' as int + 26
    else if '0' <= c <= '9' then c as int - '0' as int + 52
    else if c == '+' then 62 else 63
  }

  function Letters(v: seq<Sextet>): (s: string)
    ensures |s| == |v|
    ensures forall i | 0 <= i < |v| :: IsSymbol(s[i]) && Value(s[i]) == v[i]
  {
    seq(|v|, i requires 0 <= i < |v| => Symbol(v[i]))
  }

  /** The alphabet of table 1 of RFC 4648: capitals, small letters, digits, plus and slash, each run in order. */
  lemma AlphabetInOrder(v: Sextet)
    ensures Symbol(0) == 'A' && Symbol(26) == 'a' && Symbol(52) == '0' && Symbol(62) == '+' && Symbol(63) == '/'
    ensures v !in {0, 26, 52, 62, 63} ==> Symbol(v) as int == Symbol(v - 1) as int + 1
    ensures IsSymbol(Symbol(v)) && Value(Symbol(v)) == v
  {
  }

  /** Three bytes and their four sextets are the same 24 bits, the first byte foremost. */
  lemma GroupIsOneNumber(b0: Byte, b1: Byte, b2: Byte)
    ensures var v := Sextets([b0, b1, b2]);
            && |v| == 4
            && 262144 * v[0] as int + 4096 * v[1] as int + 64 * v[2] as int + v[3] as int
               == 65536 * b0 as int + 256 * b1 as int + b2 as int
  {
    var b: Bytes := [b0, b1, b2];
    assert b[3..] == [] && Sextets(b[3..]) == [];
  }

  /** The values of the symbols at the start of s. */
  function Values(s: string): (v: seq<Sextet>)
    ensures |v| <= |s| && (|v| < |s| ==> !IsSymbol(s[|v|]))
    ensures forall i | 0 <= i < |v| :: IsSymbol(s[i]) && v[i] == Value(s[i])
  {
    if s != "" && IsSymbol(s[0]) then [Value(s[0])] + Values(s[1..]) else []
  }

  function Padding(n: nat): string {
    if n % 4 == 2 then "==" else if n % 4 == 3 then "=" else ""
  }

  function Encode(b: Bytes): string {
    Letters(Sextets(b)) + Padding(|Sextets(b)|)
  }

  /** The lenient decoder, on the symbols before the padding. */
  function Decode(s: string): Bytes {
    Octets(Values(s))
  }

  /** One or more symbols, then at most two '='. */
  predicate Padded(s: string) {
    var n := |Values(s)|;
    n >= 1 && |s| - n <= 2 && forall i | n <= i < |s| :: s[i] == '='
  }

  predicate IsCanonical(s: string) {
    |s| != 0 && |s| % 4 == 0 && Padded(s) && Encode(Decode(s)) == s
  }

  lemma ValuesEnd(s: string, n: nat)
    requires n <= |s| && (forall i | 0 <= i < n :: IsSymbol(s[i])) && (n < |s| ==> !IsSymbol(s[n]))
    ensures |Values(s)| == n
  {
  }

  lemma ValuesOfLetters(v: seq<Sextet>, pad: string)
    requires pad == "" || pad[0] == '='
    ensures Values(Letters(v) + pad) == v
  {
    var s := Letters(v) + pad;
    ValuesEnd(s, |v|);
    forall i | 0 <= i < |v|
      ensures Values(s)[i] == v[i]
    {
      assert s[i] == Letters(v)[i];
    }
  }

  lemma PaddingText(s: string, n: nat)
    requires |s| % 4 == 0 && n <= |s| <= n + 2 && forall i | n <= i < |s| :: s[i] == '='
    ensures n % 4 != 1 && s[n..] == Padding(n)
  {
    assert |s[n..]| == |Padding(n)|;
  }

  /** Text of the right shape and length is its symbols and the padding their number calls for. */
  lemma PaddedText(s: string)
    requires |s| % 4 == 0 && Padded(s)
    ensures |Values(s)| % 4 != 1 && s == Letters(Values(s)) + Padding(|Values(s)|)
  {
    var v := Values(s);
    forall i | 0 <= i < |v|
      ensures Letters(v)[i] == s[i]
    {
    }
    assert s[..|v|] == Letters(v);
    PaddingText(s, |v|);
    assert s == s[..|v|] + s[|v|..];
  }

  /** The letters of v and the padding their number calls for are padded text. */
  lemma LettersPadded(v: seq<Sextet>)
    requires |v| % 4 != 1
    ensures var s := Letters(v) + Padding(|v|); Values(s) == v && |s| % 4 == 0 && (v != [] ==> Padded(s))
  {
    ValuesOfLetters(v, Padding(|v|));
  }

  // ---------------------------------------------------------------- what is canonical

  /** Encoding loses nothing and has the padded shape. */
  lemma DecodeEncode(b: Bytes)
    ensures Decode(Encode(b)) == b
    ensures b != [] ==> |Encode(b)| != 0 && |Encode(b)| % 4 == 0 && Padded(Encode(b))
  {
    SextetsLength(b);
    LettersPadded(Sextets(b));
    OctetsOfSextets(b);
  }

  lemma EncodingIsCanonical(b: Bytes)
    requires b != []
    ensures IsCanonical(Encode(b)) && Decode(Encode(b)) == b
  {
    DecodeEncode(b);
  }

  /** Canonical text is exactly the encoding of a non-empty byte string, and of only one. */
  lemma CanonicalIsEncoding(s: string)
    ensures IsCanonical(s) <==> exists b: Bytes :: b != [] && Encode(b) == s
    ensures forall b: Bytes | b != [] && Encode(b) == s :: b == Decode(s)
  {
    if IsCanonical(s) {
      assert Decode(s) != [] && Encode(Decode(s)) == s;
    }
    forall b: Bytes | b != [] && Encode(b) == s
      ensures b == Decode(s) && IsCanonical(s)
    {
      EncodingIsCanonical(b);
    }
  }

  /** Canonical text is exactly padded text whose unused bits are zero (section 3.5 of RFC 4648). */
  lemma CanonicalIsZeroPadded(s: string)
    ensures IsCanonical(s) <==> |s| != 0 && |s| % 4 == 0 && Padded(s) && ZeroPadded(Values(s))
  {
    if |s| % 4 == 0 && Padded(s) {
      var v := Values(s);
      var w := Sextets(Octets(v));
      PaddedText(s);
      SextetsOfOctets(v);
      ValuesOfLetters(w, Padding(|w|));
    }
  }
}
