/**
 Diagnostic, omissionNotice and StderrLine of bridge/internal/handshake/handshake.go: one stderr-safe
 line of at most 512 bytes, which names how many bytes it leaves out.
 */
module Diagnostic {
  import opened Numerals
  import opened Utf8Text

  const STDERR_PREFIX := "vex-mcp: "
  const BODY_MAX_BYTES := 502

  /** Go's len is an int. */
  const INT_LIMIT := 0x8000_0000_0000_0000

  function OmissionNotice(omitted: nat, total: nat): string {
    " [" + Decimal(omitted) + " more bytes omitted from a " + Decimal(total) + "-byte host message]"
  }

  /** Keeping k bytes of text leaves room for the notice that says so. */
  predicate Fits(text: string, k: nat) {
    k <= |text| && k + |OmissionNotice(|text| - k, |text|)| <= BODY_MAX_BYTES
  }

  /** The greatest UTF-8 boundary whose content and own notice fit. */
  ghost predicate IsBestCut(text: string, k: nat) {
    && Boundary(text, k) && Fits(text, k)
    && (forall j: nat | Boundary(text, j) && Fits(text, j) :: j <= k)
  }

  ghost predicate IsDiagnostic(message: string, body: string) {
    var text := Cleaned(message);
    if |text| <= BODY_MAX_BYTES then body == text
    else exists k: nat :: IsBestCut(text, k) && body == text[..k] + OmissionNotice(|text| - k, |text|)
  }

  lemma NoticeLength(omitted: nat, total: nat)
    requires omitted <= total < INT_LIMIT
    ensures |OmissionNotice(omitted, total)| <= 86
  {
    assert Pow10(19) == 1_0000000000_000000000 by {
      assert Pow10(4) == 1_0000;
      assert Pow10(8) == 1_0000_0000;
      assert Pow10(12) == 1_0000_0000_0000;
      assert Pow10(16) == 1_0000_0000_0000_0000;
    }
    DecimalLength(omitted, 19);
    DecimalLength(total, 19);
  }

  lemma NoticeGrows(fewer: nat, more: nat, total: nat)
    requires fewer <= more
    ensures |OmissionNotice(fewer, total)| <= |OmissionNotice(more, total)|
  {
    DecimalGrows(fewer, more);
  }

  /**
   The loop. kept only decreases, every cut that fits stays at or below it, and it stops at a cut whose
   notice is the one its own length was computed from.
   */
  method Diagnose(message: string) returns (body: string)
    requires |message| < INT_LIMIT
    ensures IsDiagnostic(message, body)
  {
    var cleaned := Cleaned(message);
    CleanedIsTidy(message);
    if |cleaned| <= BODY_MAX_BYTES {
      return cleaned;
    }
    var kept := BODY_MAX_BYTES;
    while true
      invariant 0 <= kept <= BODY_MAX_BYTES
      invariant forall j: nat | Boundary(cleaned, j) && Fits(cleaned, j) :: j <= kept
      decreases kept
    {
      var suffix := OmissionNotice(|cleaned| - kept, |cleaned|);
      NoticeLength(|cleaned| - kept, |cleaned|);
      var next := BODY_MAX_BYTES - |suffix|;
      if next < 0 {
        next := 0;
      }
      if next > kept {
        next := kept;
      }
      forall j: nat | Boundary(cleaned, j) && Fits(cleaned, j)
        ensures j <= next
      {
        assert j <= kept;
        NoticeGrows(|cleaned| - kept, |cleaned| - j, |cleaned|);
      }
      while next > 0 && !RuneStart(cleaned[next])
        invariant 0 <= next <= kept && next <= BODY_MAX_BYTES - |suffix|
        invariant forall j: nat | Boundary(cleaned, j) && Fits(cleaned, j) :: j <= next
      {
        next := next - 1;
      }
      if next == kept {
        assert IsBestCut(cleaned, kept);
        return cleaned[..kept] + suffix;
      }
      kept := next;
    }
  }

  // ---------------------------------------------------------------- what a diagnostic promises

  lemma BestCutUnique(text: string, j: nat, k: nat)
    requires IsBestCut(text, j) && IsBestCut(text, k)
    ensures j == k
  {
  }

  lemma NoticePrintable(omitted: nat, total: nat)
    ensures Printable(OmissionNotice(omitted, total))
    ensures var s := OmissionNotice(omitted, total); s[|s| - 1] == ']'
  {
    var a, b, c := " [" + Decimal(omitted), " more bytes omitted from a " + Decimal(total), "-byte host message]";
    assert OmissionNotice(omitted, total) == a + b + c;
    assert Printable(Decimal(omitted)) && Printable(Decimal(total));
    assert Printable(" [") && Printable(" more bytes omitted from a ");
    PrintableConcat(" [", Decimal(omitted));
    PrintableConcat(" more bytes omitted from a ", Decimal(total));
    assert Printable(c);
    PrintableConcat(a, b);
    PrintableConcat(a + b, c);
  }

  lemma PrintableConcat(a: string, b: string)
    requires Printable(a) && Printable(b)
    ensures Printable(a + b)
  {
  }

  /** A message long enough to be cut always keeps some of its text. */
  lemma CutIsPositive(text: string, us: seq<string>, k: nat)
    requires Tidy(us) && text == Flatten(us) && BODY_MAX_BYTES < |text| < INT_LIMIT && IsBestCut(text, k)
    ensures k > 0
  {
    var n := |us[0]|;
    assert text == us[0] + Flatten(us[1..]);
    if us[1..] != [] {
      SoundStarts(us[1]);
      assert Flatten(us[1..])[0] == us[1][0] && text[n] == us[1][0];
    }
    assert n <= 4 && Boundary(text, n);
    NoticeLength(|text| - n, |text|);
    assert Fits(text, n);
  }

  /** The units of a cut message and its notice. */
  lemma CutIsTidy(text: string, us: seq<string>, k: nat) returns (vs: seq<string>)
    requires Tidy(us) && text == Flatten(us) && BODY_MAX_BYTES < |text| < INT_LIMIT && IsBestCut(text, k)
    ensures Tidy(vs) && Flatten(vs) == text[..k] + OmissionNotice(|text| - k, |text|)
  {
    var notice := OmissionNotice(|text| - k, |text|);
    NoticePrintable(|text| - k, |text|);
    LettersSound(notice);
    CutIsPositive(text, us, k);
    var j := CutBetweenUnits(us, k);
    vs := us[..j] + Letters(notice);
    FlattenConcat(us[..j], Letters(notice));
    assert vs[0] == us[0] && vs[|vs| - 1] == "]";
  }

  /** Every diagnostic is tidy text within the budget, so it holds no newline. */
  lemma DiagnosticTidy(message: string, body: string) returns (vs: seq<string>)
    requires |message| < INT_LIMIT && IsDiagnostic(message, body)
    ensures Tidy(vs) && Flatten(vs) == body && |body| <= BODY_MAX_BYTES
  {
    CleanedIsTidy(message);
    var text := Cleaned(message);
    if |text| <= BODY_MAX_BYTES {
      vs := CleanUnits(message);
    } else {
      var k: nat :| IsBestCut(text, k) && body == text[..k] + OmissionNotice(|text| - k, |text|);
      vs := CutIsTidy(text, CleanUnits(message), k);
    }
  }

  /** A diagnostic of a diagnostic is that diagnostic. */
  lemma DiagnosticIdempotent(message: string, body: string, again: string)
    requires |message| < INT_LIMIT && IsDiagnostic(message, body) && IsDiagnostic(body, again)
    ensures again == body
  {
    var vs := DiagnosticTidy(message, body);
    TidyIsClean(vs);
  }

  /** When the message is cut, the printed count is exactly what was left out, and some text is kept. */
  lemma CutNamesWhatItOmits(message: string, body: string)
    requires |message| < INT_LIMIT && IsDiagnostic(message, body) && |Cleaned(message)| > BODY_MAX_BYTES
    ensures var text := Cleaned(message);
            exists k: nat ::
              && 0 < k < |text|
              && body == text[..k] + (" [" + Decimal(|text[k..]|) + " more bytes omitted from a "
                                      + Decimal(|text|) + "-byte host message]")
  {
    var text := Cleaned(message);
    var k: nat :| IsBestCut(text, k) && body == text[..k] + OmissionNotice(|text| - k, |text|);
    CleanedIsTidy(message);
    CutIsPositive(text, CleanUnits(message), k);
    assert |text[k..]| == |text| - k;
  }

  /** The line as it would read with k bytes kept. */
  function LineWith(text: string, k: nat): string
    requires k <= |text|
  {
    STDERR_PREFIX + (text[..k] + OmissionNotice(|text| - k, |text|)) + "\n"
  }

  /**
   No room is wasted: a message of at most 512 bytes with its prefix and newline is printed whole, and where one is
   cut, cutting it at any later character would make the line longer than 512 bytes.
   */
  lemma LineIsFull(message: string, body: string)
    requires IsDiagnostic(message, body)
    ensures var text := Cleaned(message);
            if |"vex-mcp: " + text + "\n"| <= 512 then body == text
            else exists k: nat ::
              && k <= |text| && STDERR_PREFIX + body + "\n" == LineWith(text, k) && |LineWith(text, k)| <= 512
              && forall j: nat | k < j && Boundary(text, j) :: |LineWith(text, j)| > 512
  {
    var text := Cleaned(message);
    if |text| > BODY_MAX_BYTES {
      var k: nat :| IsBestCut(text, k) && body == text[..k] + OmissionNotice(|text| - k, |text|);
      forall j: nat | k < j && Boundary(text, j) ensures |LineWith(text, j)| > 512 {
        assert !Fits(text, j);
      }
      assert STDERR_PREFIX + body + "\n" == LineWith(text, k);
    }
  }

  method StderrLine(message: string) returns (line: string)
    requires |message| < INT_LIMIT
    ensures exists body :: IsDiagnostic(message, body) && line == "vex-mcp: " + body + "\n"
    ensures |line| <= 512
    ensures line[|line| - 1] == '\n' && '\n' !in line[..|line| - 1]
  {
    var body := Diagnose(message);
    ghost var vs := DiagnosticTidy(message, body);
    NoNewlines(vs);
    line := STDERR_PREFIX + body + "\n";
    assert line[..|line| - 1] == STDERR_PREFIX + body;
  }
}
