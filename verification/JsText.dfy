/** What JavaScript calls line terminators and white space, and trimming, and its order on strings. */
module JsText {

  predicate IsLineTerminator(c: char) {
    c == '\n' || c == '\r' || c == '\U{2028}' || c == '\U{2029}'
  }

  predicate OneLine(t: string) {
    forall i | 0 <= i < |t| :: !IsLineTerminator(t[i])
  }

  predicate IsSpace(c: char) {
    || IsLineTerminator(c)
    || c == ' ' || c == '\t' || c == '\U{0B}' || c == '\U{0C}' || c == '\U{A0}' || c == '\U{1680}'
    || '\U{2000}' <= c <= '\U{200A}' || c == '\U{202F}' || c == '\U{205F}' || c == '\U{3000}' || c == '\U{FEFF}'
  }

  predicate Blank(t: string) {
    forall i | 0 <= i < |t| :: IsSpace(t[i])
  }

  /** The order of < on strings: the first difference decides, and a proper prefix comes first. */
  predicate Before(a: string, b: string) {
    if a == "" then b != "" else b != "" && (a[0] < b[0] || (a[0] == b[0] && Before(a[1..], b[1..])))
  }

  function TrimEnd(s: string): (r: string)
    ensures r <= s && Blank(s[|r|..]) && (r != "" ==> !IsSpace(r[|r| - 1]))
  {
    if s != "" && IsSpace(s[|s| - 1]) then TrimEnd(s[..|s| - 1]) else s
  }

  function TrimStart(s: string): (r: string)
    ensures |r| <= |s| && r == s[|s| - |r|..] && Blank(s[..|s| - |r|]) && (r != "" ==> !IsSpace(r[0]))
  {
    if s != "" && IsSpace(s[0]) then TrimStart(s[1..]) else s
  }

  function Trim(s: string): string {
    TrimStart(TrimEnd(s))
  }

  lemma TrimStartKeeps(s: string)
    requires s != "" && !IsSpace(s[0])
    ensures TrimStart(s) == s
  {
  }

  /** Trailing white space does not show. */
  lemma {:induction false} TrimEndTail(s: string, w: string)
    requires Blank(w)
    ensures TrimEnd(s + w) == TrimEnd(s)
    decreases |w|
  {
    if w == "" {
      assert s + w == s;
    } else {
      TrimEndTail(s, w[..|w| - 1]);
      assert (s + w)[..|s + w| - 1] == s + w[..|w| - 1];
    }
  }

  lemma Associate(a: string, b: string, c: string)
    ensures (a + b) + c == a + (b + c)
  {
  }

  /** The white space and line terminators of ECMA-262, sections 12.2 and 12.3, by their code points. */
  lemma CodePoints(c: char)
    ensures IsLineTerminator(c) <==> c as int in {10, 13, 8232, 8233}
    ensures IsSpace(c) <==> c as int in {9, 11, 12, 32, 160, 5760, 8239, 8287, 12288, 65279, 10, 13, 8232, 8233}
                            || 8192 <= c as int <= 8202
  {
  }
}
