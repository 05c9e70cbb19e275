/**
 * The text gates of pdf_extractor.py: the low-quality heuristic that decides
 * whether the OCR collaborator's text replaces the text layer, the redaction
 * heuristic that short-circuits extraction, and the uniform redacted notice.
 *
 * The source compares float ratios (`short_lines / len(lines) > 0.8`); here the
 * same comparisons are made by integer cross-multiplication (Exceeds).
 */
module TextGates {
  import opened Text

  /** `part / whole > num / den`, decided on integers. */
  function Exceeds(part: nat, whole: nat, num: nat, den: nat): (r: bool)
    requires whole > 0 && den > 0
    ensures r <==> (part as real) / (whole as real) > (num as real) / (den as real)
  {
    RatioOrder(part, whole, num, den);
    part * den > num * whole
  }

  lemma RatioOrder(a: nat, b: nat, c: nat, d: nat)
    requires b > 0 && d > 0
    ensures (a as real) / (b as real) > (c as real) / (d as real) <==> a * d > c * b
  {
    var x, y := (a as real) / (b as real), (c as real) / (d as real);
    assert x * (b as real) == a as real;
    assert y * (d as real) == c as real;
    assert (b as real) * (d as real) > 0.0;
    assert x - y == ((a * d - c * b) as real) / ((b * d) as real);
  }

  // ---------------------------------------------------------------- is_low_quality_text

  /** How many lines strip to fewer than 10 characters. */
  function ShortLines(lines: seq<string>): (n: nat)
    ensures n <= |lines|
  {
    if lines == [] then 0
    else ShortLines(lines[..|lines| - 1]) + (if |Strip(lines[|lines| - 1])| < 10 then 1 else 0)
  }

  /**
   * A token that looks like an OCR artefact: one character, a run of more than
   * six digits, or three or more characters none of which is a letter or digit.
   */
  predicate Suspicious(w: string) {
    || |w| == 1
    || (AllDigits(w) && |w| > 6)
    || (|w| >= 3 && forall i :: 0 <= i < |w| ==> !IsAlnum(w[i]) && !IsSpace(w[i]))
  }

  function SuspiciousTokens(words: seq<string>): (n: nat)
    ensures n <= |words|
  {
    if words == [] then 0
    else SuspiciousTokens(words[..|words| - 1]) + (if Suspicious(words[|words| - 1]) then 1 else 0)
  }

  /** Counting short lines adds up over any split of the line list. */
  lemma {:induction false} ShortLinesAppend(a: seq<string>, b: seq<string>)
    ensures ShortLines(a + b) == ShortLines(a) + ShortLines(b)
    decreases |b|
  {
    if b != [] {
      var b' := b[..|b| - 1];
      ShortLinesAppend(a, b');
      assert (a + b)[..|a + b| - 1] == a + b';
    } else {
      assert a + b == a;
    }
  }

  /** Counting suspicious tokens adds up over any split of the token list. */
  lemma {:induction false} SuspiciousTokensAppend(a: seq<string>, b: seq<string>)
    ensures SuspiciousTokens(a + b) == SuspiciousTokens(a) + SuspiciousTokens(b)
    decreases |b|
  {
    if b != [] {
      var b' := b[..|b| - 1];
      SuspiciousTokensAppend(a, b');
      assert (a + b)[..|a + b| - 1] == a + b';
    } else {
      assert a + b == a;
    }
  }

  /**
   * `is_low_quality_text(text)`. A text under 50 characters once stripped is
   * always low quality; a longer one can only be low quality through its lines
   * (more than five) or its words (more than ten).
   */
  function IsLowQualityText(text: string): (low: bool)
    ensures |Strip(text)| < 50 ==> low
    ensures low && |Strip(text)| >= 50 ==> |SplitOn(text, '\n')| > 5 || |Tokens(text)| > 10
    ensures var lines := SplitOn(text, '\n'); var words := Tokens(text);
      |Strip(text)| >= 50 ==>
        (low <==> (|lines| > 5 && ShortLines(lines) * 10 > 8 * |lines|)
                  || (|words| > 10 && SuspiciousTokens(words) * 10 > 3 * |words|))
  {
    if text == [] || |Strip(text)| < 50 then true
    else
      var lines := SplitOn(text, '\n');
      if |lines| > 5 && Exceeds(ShortLines(lines), |lines|, 8, 10) then true
      else
        var words := Tokens(text);
        |words| > 10 && Exceeds(SuspiciousTokens(words), |words|, 3, 10)
  }

  /** More than ten words, over 30% of them suspicious, make any text low quality. */
  lemma SuspiciousTextIsLowQuality(text: string)
    requires |Tokens(text)| > 10
    requires SuspiciousTokens(Tokens(text)) * 10 > 3 * |Tokens(text)|
    ensures IsLowQualityText(text)
  {
  }

  /**
   * A text of at least 50 stripped characters is good enough when at most 80%
   * of its lines are short and at most 30% of its words are suspicious.
   */
  lemma AcceptableTextIsNotLowQuality(text: string)
    requires |Strip(text)| >= 50
    requires ShortLines(SplitOn(text, '\n')) * 10 <= 8 * |SplitOn(text, '\n')|
    requires SuspiciousTokens(Tokens(text)) * 10 <= 3 * |Tokens(text)|
    ensures !IsLowQualityText(text)
  {
  }

  /** Every line counts as short when each strips to fewer than 10 characters. */
  lemma {:induction false} AllShortLines(lines: seq<string>)
    requires forall k :: 0 <= k < |lines| ==> |Strip(lines[k])| < 10
    ensures ShortLines(lines) == |lines|
  {
    if lines != [] {
      AllShortLines(lines[..|lines| - 1]);
    }
  }

  /**
   * A text of more than five lines that all strip to fewer than ten characters
   * is low quality, whatever its length.
   */
  lemma FragmentedTextIsLowQuality(text: string)
    requires |SplitOn(text, '\n')| > 5
    requires forall k :: 0 <= k < |SplitOn(text, '\n')| ==> |Strip(SplitOn(text, '\n')[k])| < 10
    ensures IsLowQualityText(text)
  {
    AllShortLines(SplitOn(text, '\n'));
  }

  // ---------------------------------------------------------------- is_redacted_pdf

  /** The three marker patterns, each searched case-insensitively. */
  const RedactionMarkers: seq<string> := ["REDACTED", "[PROTECTED]", "[CONFIDENTIAL]"]

  predicate MarkerPresent(text: string, marker: string) {
    Contains(Lower(text), Lower(marker))
  }

  /** How many of `markers` occur in `text`. */
  function MarkersPresent(text: string, markers: seq<string>): (n: nat)
    ensures n <= |markers|
  {
    if markers == [] then 0
    else
      var last := if MarkerPresent(text, markers[|markers| - 1]) then 1 else 0;
      MarkersPresent(text, markers[..|markers| - 1]) + last
  }

  /** The counter loop of `is_redacted_pdf` over its marker patterns. */
  method CountRedactionMarkers(text: string) returns (count: nat)
    ensures count == MarkersPresent(text, RedactionMarkers)
    ensures count <= 3
  {
    count := 0;
    var i := 0;
    while i < |RedactionMarkers|
      invariant 0 <= i <= |RedactionMarkers|
      invariant count == MarkersPresent(text, RedactionMarkers[..i])
    {
      assert RedactionMarkers[..i + 1][..i] == RedactionMarkers[..i];
      if MarkerPresent(text, RedactionMarkers[i]) {
        count := count + 1;
      }
      i := i + 1;
    }
    assert RedactionMarkers[..i] == RedactionMarkers;
  }

  const Placeholder: string := "000-111"

  function PlaceholderTokens(words: seq<string>): (n: nat)
    ensures n <= |words|
  {
    if words == [] then 0
    else PlaceholderTokens(words[..|words| - 1]) + (if words[|words| - 1] == Placeholder then 1 else 0)
  }

  /**
   * The decision `is_redacted_pdf` makes: never for a text under 100 stripped
   * characters; otherwise only through a placeholder majority among more than
   * 50 words, or through two markers.
   */
  function Redacted(text: string): (r: bool)
    ensures |Strip(text)| < 100 ==> !r
    ensures r ==> (|Tokens(text)| > 50 && PlaceholderTokens(Tokens(text)) * 2 > |Tokens(text)|)
                  || MarkersPresent(text, RedactionMarkers) >= 2
  {
    if text == [] || |Strip(text)| < 100 then false
    else
      var words := Tokens(text);
      if |words| > 50 && Exceeds(PlaceholderTokens(words), |words|, 1, 2) then true
      else MarkersPresent(text, RedactionMarkers) >= 2 && |words| < 200
  }

  /** `is_redacted_pdf(text)`. */
  method IsRedactedPdf(text: string) returns (redacted: bool)
    ensures redacted == Redacted(text)
  {
    if text == [] || |Strip(text)| < 100 {
      return false;
    }
    var matches := CountRedactionMarkers(text);
    var words := Tokens(text);
    if |words| > 50 {
      var placeholders := PlaceholderTokens(words);
      if placeholders * 2 > |words| {
        return true;
      }
    }
    redacted := matches >= 2 && |words| < 200;
  }

  /** More than 50 words, over half of them the placeholder, make a long enough text redacted. */
  lemma PlaceholderMajorityIsRedacted(text: string)
    requires |Strip(text)| >= 100
    requires |Tokens(text)| > 50 && PlaceholderTokens(Tokens(text)) * 2 > |Tokens(text)|
    ensures Redacted(text)
  {
  }

  /** Two of the three markers in a long enough text of fewer than 200 words make it redacted. */
  lemma MarkedTextIsRedacted(text: string)
    requires |Strip(text)| >= 100
    requires MarkersPresent(text, RedactionMarkers) >= 2 && |Tokens(text)| < 200
    ensures Redacted(text)
  {
  }

  /** A long text made mostly of other words is never taken for redacted. */
  lemma LongTextNeedsPlaceholders(text: string)
    requires |Tokens(text)| >= 200
    requires PlaceholderTokens(Tokens(text)) * 2 <= |Tokens(text)|
    ensures !Redacted(text)
  {
  }

  lemma {:induction false} AllPlaceholders(words: seq<string>)
    requires forall k :: 0 <= k < |words| ==> words[k] == Placeholder
    ensures PlaceholderTokens(words) == |words|
  {
    if words != [] {
      AllPlaceholders(words[..|words| - 1]);
    }
  }

  /** A long enough text of more than 50 words, every one the placeholder, is redacted. */
  lemma PlaceholderTextIsRedacted(text: string)
    requires |Strip(text)| >= 100
    requires |Tokens(text)| > 50
    requires forall k :: 0 <= k < |Tokens(text)| ==> Tokens(text)[k] == Placeholder
    ensures Redacted(text)
  {
    AllPlaceholders(Tokens(text));
  }

  // ---------------------------------------------------------------- create_redacted_notice

  const RedactedValue: string := "REDACTED - Please use a non-anonymized medical report"

  const RedactedKeys: seq<string> := [
    "BRCA1", "BRCA2", "MLH1", "MSH2", "MSH6", "PMS2", "EPCAM", "APC", "MUTYH",
    "TP53", "CHEK2", "PALB2", "ATM", "CDH1", "STK11", "PTEN", "VHL", "MEN1",
    "RET", "NF1", "NF2", "TSC1", "TSC2", "AKT1", "PIK3CA", "FOLR1_Expression",
    "FOLR1_Interpretation", "HER2_Expression", "HER2_Interpretation", "PD-L1_Expression",
    "PD-L1_Interpretation", "Ki-67_Expression", "Ki-67_Interpretation", "Sensitivity",
    "Specificity", "PPA", "NPA", "Reporting_date", "Subject_ID", "Year_of_birth", "Gender"]

  /** `create_redacted_notice()`: every listed key mapped to the same notice. */
  function RedactedNotice(): (m: map<string, string>)
    ensures forall k :: k in m <==> k in RedactedKeys
    ensures forall k :: k in m ==> m[k] == RedactedValue
  {
    map k | k in RedactedKeys :: RedactedValue
  }

  // ---------------------------------------------------------------- OCR gate

  /**
   * The text `extract_data_from_pdf` goes on with: the OCR collaborator's text
   * replaces a blank or low-quality text layer, unless OCR produced nothing.
   * `ocrText` is what the collaborator returns when it is asked.
   */
  function ChosenText(layerText: string, ocrText: string): (t: string)
    ensures !IsLowQualityText(layerText) ==> t == layerText
    ensures IsLowQualityText(layerText) && ocrText != [] ==> t == ocrText
    ensures ocrText == [] ==> t == layerText
  {
    if (Strip(layerText) == [] || IsLowQualityText(layerText)) && ocrText != [] then ocrText else layerText
  }
}
