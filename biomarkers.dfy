/**
 * Biomarker interpretation in pdf_extractor.py: the FOLR1 threshold with its
 * textual fallback (`determine_folr1_interpretation`) and the PD-L1 result text
 * with its Negative/Positive suffix (`extract_pdl1_results`).
 *
 * The searches stay abstract; only the shape of what their group can capture is
 * fixed: `([0-9.]+)` for FOLR1, `([0-9]+)` or `([<>]?\s*[0-9]+)` for PD-L1.
 */
module Biomarkers {
  import opened Text

  // ---------------------------------------------------------------- decimals

  predicate IsDecimalChar(c: char) { IsDigit(c) || c == '.' }

  /** What a PD-L1 group (`([0-9]+)` or `([<>]?\s*[0-9]+)`) can capture: it always ends in a digit. */
  type PercentText = s: string | s != [] && IsDigit(s[|s| - 1]) witness "0"

  /** What the group `([0-9.]+)` can capture. */
  type DecimalText = s: string | s != [] && forall i :: 0 <= i < |s| ==> IsDecimalChar(s[i]) witness "0"

  function Pow10(n: nat): (p: nat)
    ensures p > 0
  {
    if n == 0 then 1 else 10 * Pow10(n - 1)
  }

  /** At most one '.' in `s`. */
  predicate OneDotAtMost(s: string) {
    forall i, j :: 0 <= i < j < |s| && s[i] == '.' ==> s[j] != '.'
  }

  /** The value of the digits `ip`, a dot and the digits `frac`. */
  function Decimal(ip: string, frac: string): real
    requires forall i :: 0 <= i < |ip| ==> IsDigit(ip[i])
    requires forall i :: 0 <= i < |frac| ==> IsDigit(frac[i])
  {
    DigitsValue(ip) as real + (DigitsValue(frac) as real) / (Pow10(|frac|) as real)
  }

  /**
   * Python's `float(s)` on a capture of `[0-9.]+`: `None` for the ValueError it
   * raises on "." or "1.2.3", otherwise the decimal value.
   */
  function ParseDecimal(s: DecimalText): (r: Option<real>)
    ensures r.Some? <==> OneDotAtMost(s) && HasDigit(s)
    ensures r.Some? ==> r.value >= 0.0
    ensures (forall i :: 0 <= i < |s| ==> IsDigit(s[i])) ==> r == Some(DigitsValue(s) as real)
  {
    var ip := DigitPrefix(s);
    if |ip| == |s| then
      assert ip == s;
      assert IsDigit(s[0]);
      Some(DigitsValue(ip) as real)
    else
      var frac := s[|ip| + 1..];
      assert s[|ip|] == '.';
      ParseCases(s, ip, frac);
      if (forall i :: 0 <= i < |frac| ==> IsDigit(frac[i])) && (ip != [] || frac != []) then
        Some(Decimal(ip, frac))
      else None
  }

  /** The case analysis behind ParseDecimal's success condition. */
  lemma ParseCases(s: DecimalText, ip: string, frac: string)
    requires |ip| < |s| && ip == s[..|ip|] && s[|ip|] == '.'
    requires forall i :: 0 <= i < |ip| ==> IsDigit(ip[i])
    requires frac == s[|ip| + 1..]
    ensures ((forall i :: 0 <= i < |frac| ==> IsDigit(frac[i])) && (ip != [] || frac != []))
        <==> OneDotAtMost(s) && HasDigit(s)
  {
    var p := |ip|;
    forall i | 0 <= i < |frac| ensures frac[i] == s[p + 1 + i] { }
    if forall i :: 0 <= i < |frac| ==> IsDigit(frac[i]) {
      forall i | 0 <= i < |s| && i != p ensures IsDigit(s[i]) {
        if i < p { assert s[i] == ip[i]; } else { assert s[i] == frac[i - p - 1]; }
      }
      if ip != [] {
        assert IsDigit(s[0]);
      } else if frac != [] {
        assert IsDigit(s[p + 1]);
      } else {
        forall i | 0 <= i < |s| ensures !IsDigit(s[i]) { assert i == p; }
      }
    } else {
      var i :| 0 <= i < |frac| && !IsDigit(frac[i]);
      assert s[p + 1 + i] == '.';
      assert !OneDotAtMost(s);
    }
  }

  /** Two digit strings joined are a digit string. */
  lemma DigitsConcat(a: string, b: string)
    requires forall i :: 0 <= i < |a| ==> IsDigit(a[i])
    requires forall i :: 0 <= i < |b| ==> IsDigit(b[i])
    ensures forall i :: 0 <= i < |a + b| ==> IsDigit((a + b)[i])
  {
    forall i | 0 <= i < |a + b| ensures IsDigit((a + b)[i]) {
      if i < |a| { assert (a + b)[i] == a[i]; } else { assert (a + b)[i] == b[i - |a|]; }
    }
  }

  /** Digits read left to right: appending `b` shifts the value of `a` by `|b|` places. */
  lemma {:induction false} DigitsValueAppend(a: string, b: string)
    requires forall i :: 0 <= i < |a| ==> IsDigit(a[i])
    requires forall i :: 0 <= i < |b| ==> IsDigit(b[i])
    ensures DigitsValue(a + b) == DigitsValue(a) * Pow10(|b|) + DigitsValue(b)
    decreases |b|
  {
    if b != [] {
      var b' := b[..|b| - 1];
      DigitsConcat(a, b);
      assert (a + b)[..|a + b| - 1] == a + b';
      assert (a + b)[|a + b| - 1] == b[|b| - 1];
      DigitsValueAppend(a, b');
      ShiftStep(DigitsValue(a + b), DigitsValue(a + b'), DigitsValue(a), DigitsValue(b'), Pow10(|b'|), DigitOf(b[|b| - 1]));
    } else {
      assert a + b == a;
    }
  }

  /** The digit run before the dot of `ip + "." + frac` is `ip`. */
  lemma DigitPrefixBeforeDot(s: string, ip: string, frac: string)
    requires s == ip + "." + frac
    requires forall i :: 0 <= i < |ip| ==> IsDigit(ip[i])
    ensures DigitPrefix(s) == ip && s[|ip| + 1..] == frac
  {
    var d := DigitPrefix(s);
    assert s[|ip|] == '.';
    assert forall i :: 0 <= i < |ip| ==> s[i] == ip[i];
    assert |d| == |ip|;
  }

  /** ParseDecimal on a capture whose digit run stops at a dot followed by digits. */
  lemma ParseAtDot(s: DecimalText, ip: string, frac: string)
    requires DigitPrefix(s) == ip && |ip| < |s| && s[|ip| + 1..] == frac
    requires forall i :: 0 <= i < |frac| ==> IsDigit(frac[i])
    requires ip != [] || frac != []
    ensures ParseDecimal(s) == Some(Decimal(ip, frac))
  {
  }

  lemma CastShift(a: nat, b: nat, n: nat)
    ensures ((a * n + b) as real) == (a as real) * (n as real) + (b as real)
  {
  }

  lemma ShiftedQuotient(x: real, y: real, p: real)
    requires p > 0.0
    ensures (x * p + y) / p == x + y / p
  {
  }

  /** One more digit `d` after `x` shifted by `p` places and `y`. */
  lemma ShiftStep(v: nat, w: nat, x: nat, y: nat, p: nat, d: nat)
    requires v == w * 10 + d && w == x * p + y
    ensures v == x * (10 * p) + (y * 10 + d)
  {
  }

  /**
   * `float("ip.frac")`: a capture with one dot and at least one digit reads as
   * the digits without the dot, divided by ten to the number of places after it
   * ("74.9" is 749 / 10).
   */
  lemma DottedValue(s: DecimalText, ip: string, frac: string)
    requires s == ip + "." + frac
    requires forall i :: 0 <= i < |ip| ==> IsDigit(ip[i])
    requires forall i :: 0 <= i < |frac| ==> IsDigit(frac[i])
    requires ip != [] || frac != []
    ensures ParseDecimal(s) == Some((DigitsValue(ip + frac) as real) / (Pow10(|frac|) as real))
  {
    DigitPrefixBeforeDot(s, ip, frac);
    ParseAtDot(s, ip, frac);
    ShiftedDigits(ip, frac);
  }

  /** The digits without the dot, shifted back by the places after it, are the decimal's value. */
  lemma ShiftedDigits(ip: string, frac: string)
    requires forall i :: 0 <= i < |ip| ==> IsDigit(ip[i])
    requires forall i :: 0 <= i < |frac| ==> IsDigit(frac[i])
    ensures (DigitsValue(ip + frac) as real) / (Pow10(|frac|) as real) == Decimal(ip, frac)
  {
    DigitsConcat(ip, frac);
    DigitsValueAppend(ip, frac);
    ShiftedNat(DigitsValue(ip + frac), DigitsValue(ip), DigitsValue(frac), Pow10(|frac|));
  }

  /** A number `a * n + b` divided by `n` is `a` plus `b / n`. */
  lemma ShiftedNat(v: nat, a: nat, b: nat, n: nat)
    requires n > 0 && v == a * n + b
    ensures (v as real) / (n as real) == (a as real) + (b as real) / (n as real)
  {
    CastShift(a, b, n);
    ShiftedQuotient(a as real, b as real, n as real);
  }

  // ---------------------------------------------------------------- FOLR1

  /**
   * The searches of `determine_folr1_interpretation`: the percentage rules in
   * order, then the "FOLR1 ... positive" and "FOLR1 ... negative" labels.
   */
  datatype Folr1Rules = Folr1Rules(
    percent: seq<string -> Option<DecimalText>>,
    positiveLabel: string -> bool,
    negativeLabel: string -> bool)

  /** The number one percentage rule yields: no match and an unparsable capture both give None. */
  function Reading(text: string, search: string -> Option<DecimalText>): (r: Option<real>)
    ensures r.Some? <==> search(text).Some? && OneDotAtMost(search(text).value) && HasDigit(search(text).value)
    ensures r.Some? ==> r.value >= 0.0
  {
    match search(text)
    case None => None
    case Some(d) => ParseDecimal(d)
  }

  /** The loop over the percentage rules: the first one whose capture parses. */
  function FirstReading(text: string, searches: seq<string -> Option<DecimalText>>): (r: Option<real>)
    ensures r.None? <==> forall k :: 0 <= k < |searches| ==> Reading(text, searches[k]).None?
    decreases |searches|
  {
    if searches == [] then None
    else if Reading(text, searches[0]).Some? then Reading(text, searches[0])
    else
      var r := FirstReading(text, searches[1..]);
      assert forall k :: 1 <= k < |searches| ==> searches[k] == searches[1..][k - 1];
      r
  }

  const Folr1Threshold: real := 75.0

  /** `determine_folr1_interpretation(text)`. */
  function Folr1Interpretation(text: string, rules: Folr1Rules): (r: string)
    ensures r == "positive" || r == "negative" || r == "N/A"
    ensures FirstReading(text, rules.percent).Some? ==>
      (r == "positive" <==> FirstReading(text, rules.percent).value >= Folr1Threshold)
    ensures FirstReading(text, rules.percent).Some? ==> r != "N/A"
    ensures r == "N/A" <==>
      (forall k :: 0 <= k < |rules.percent| ==> Reading(text, rules.percent[k]).None?)
      && !rules.positiveLabel(text) && !rules.negativeLabel(text)
    ensures FirstReading(text, rules.percent).None? ==> (r == "positive" <==> rules.positiveLabel(text))
  {
    match FirstReading(text, rules.percent)
    case Some(v) => if v >= Folr1Threshold then "positive" else "negative"
    case None =>
      if rules.positiveLabel(text) then "positive"
      else if rules.negativeLabel(text) then "negative"
      else "N/A"
  }

  /** For each percentage rule, whether its capture parses. */
  function Parsed(text: string, searches: seq<string -> Option<DecimalText>>): (ps: seq<bool>)
    ensures |ps| == |searches|
    ensures forall k :: 0 <= k < |searches| ==> ps[k] == Reading(text, searches[k]).Some?
  {
    seq(|searches|, k requires 0 <= k < |searches| => Reading(text, searches[k]).Some?)
  }

  /** The number used is that of the first rule whose capture parses; earlier unparsable captures are skipped. */
  lemma {:induction false} FirstReadingIsFirstParsed(text: string, searches: seq<string -> Option<DecimalText>>)
    ensures var k := FirstTrue(Parsed(text, searches));
      FirstReading(text, searches) == if k < |searches| then Reading(text, searches[k]) else None
    decreases |searches|
  {
    if searches != [] && Reading(text, searches[0]).None? {
      var flags, rest := Parsed(text, searches), Parsed(text, searches[1..]);
      assert flags[1..] == rest;
      assert FirstTrue(flags) == 1 + FirstTrue(rest);
      FirstReadingIsFirstParsed(text, searches[1..]);
      var k := FirstTrue(rest);
      if k < |searches| - 1 {
        assert searches[1 + k] == searches[1..][k];
      }
    }
  }

  /** Rules whose first percentage search captures `d`. */
  predicate FirstCaptures(text: string, rules: Folr1Rules, d: DecimalText) {
    |rules.percent| > 0 && rules.percent[0](text) == Some(d)
  }

  /** "FOLR1 expression: 85% ..." is positive. */
  lemma Folr1Pin85(text: string, rules: Folr1Rules)
    requires FirstCaptures(text, rules, "85")
    ensures Folr1Interpretation(text, rules) == "positive"
  {
    assert DigitsValue("85") == 85 by { assert "85"[..1] == "8"; }
  }

  /** "FOLR1 expression: 75% ..." is positive: the threshold is inclusive. */
  lemma Folr1Pin75(text: string, rules: Folr1Rules)
    requires FirstCaptures(text, rules, "75")
    ensures Folr1Interpretation(text, rules) == "positive"
  {
    assert DigitsValue("75") == 75 by { assert "75"[..1] == "7"; }
  }

  /** "FOLR1 expression: 60% ..." is negative. */
  lemma Folr1Pin60(text: string, rules: Folr1Rules)
    requires FirstCaptures(text, rules, "60")
    ensures Folr1Interpretation(text, rules) == "negative"
  {
    assert DigitsValue("60") == 60 by { assert "60"[..1] == "6"; }
  }

  /** "FOLR1 expression: 74.9% ..." is negative. */
  lemma Folr1Pin749(text: string, rules: Folr1Rules)
    requires FirstCaptures(text, rules, "74.9")
    ensures Folr1Interpretation(text, rules) == "negative"
  {
    var s: DecimalText := "74.9";
    assert DigitPrefix(s) == "74" by {
      assert s[1..] == "4.9";
      assert s[1..][1..] == ".9";
    }
    assert s[3..] == "9";
    assert DigitsValue("74") == 74 by { assert "74"[..1] == "7"; }
    assert DigitsValue("9") == 9 by { assert "9"[..0] == []; }
    assert ParseDecimal(s) == Some(74.0 + 9.0 / 10.0);
  }

  /** A text with no FOLR1 percentage and no FOLR1 label is "N/A". */
  lemma Folr1PinAbsent(text: string, rules: Folr1Rules)
    requires forall k :: 0 <= k < |rules.percent| ==> rules.percent[k](text).None?
    requires !rules.positiveLabel(text) && !rules.negativeLabel(text)
    ensures Folr1Interpretation(text, rules) == "N/A"
  {
  }

  /** An unparsable first capture ("1.2.3") hands over to the next rule. */
  lemma Folr1SkipsUnparsable(text: string, rules: Folr1Rules)
    requires |rules.percent| >= 2
    requires rules.percent[0](text) == Some("1.2.3")
    requires rules.percent[1](text) == Some("80")
    ensures Folr1Interpretation(text, rules) == "positive"
  {
    var bad: DecimalText := "1.2.3";
    assert bad[1] == '.' && bad[3] == '.';
    assert !OneDotAtMost(bad);
    assert Reading(text, rules.percent[0]).None?;
    var good: DecimalText := "80";
    assert DigitsValue(good) == 80 by { assert good[..1] == "8"; }
    assert Reading(text, rules.percent[1]) == Some(80.0);
    assert rules.percent[1..][0] == rules.percent[1];
    assert FirstReading(text, rules.percent) == FirstReading(text, rules.percent[1..]);
  }

  // ---------------------------------------------------------------- PD-L1

  /** The two result fields `extract_pdl1_results` returns. */
  datatype Pdl1Result = Pdl1Result(antibody: string, result: string)

  const Pdl1Antibody: string := "PDL1 IHC (22C3)"
  const ScoreText: string := "% Tumor proportion score"
  const NegativeSuffix: string := " (Negative)"
  const PositiveSuffix: string := " (Positive)"

  /**
   * The Negative test on a stripped percentage: a '<' anywhere, or a first
   * integer below 1. A percentage always holds a digit, because every PD-L1
   * group ends in `[0-9]+`.
   */
  predicate Pdl1Negative(percentage: string) {
    ContainsChar(percentage, '<') || DigitsValue(FirstDigitRun(percentage)) < 1
  }

  /** The result text built from a stripped percentage. */
  function Pdl1Text(percentage: string): (t: string)
    ensures |t| == |percentage| + |ScoreText| + 11
    ensures t[..|percentage|] == percentage
    ensures t[|percentage|..|percentage| + |ScoreText|] == ScoreText
  {
    var suffix := if Pdl1Negative(percentage) then NegativeSuffix else PositiveSuffix;
    var t := percentage + ScoreText + suffix;
    assert t == percentage + (ScoreText + suffix);
    t
  }

  /** `s` ends with `suffix`. */
  predicate EndsWith(s: string, suffix: string) {
    |suffix| <= |s| && s[|s| - |suffix|..] == suffix
  }

  /** The result text ends in " (Negative)" exactly when the percentage is negative, and in " (Positive)" otherwise. */
  lemma Pdl1SuffixIff(percentage: string)
    ensures EndsWith(Pdl1Text(percentage), NegativeSuffix) <==> Pdl1Negative(percentage)
    ensures EndsWith(Pdl1Text(percentage), PositiveSuffix) <==> !Pdl1Negative(percentage)
  {
    var t := Pdl1Text(percentage);
    var head := percentage + ScoreText;
    var tail := if Pdl1Negative(percentage) then NegativeSuffix else PositiveSuffix;
    assert t == head + tail;
    assert t[|t| - 11..] == tail;
    assert NegativeSuffix[2] != PositiveSuffix[2];
  }

  /**
   * `extract_pdl1_results(text)`: the first search, in order, that matches
   * gives the percentage; None when none matches.
   */
  function Pdl1Results(text: string, searches: seq<string -> Option<PercentText>>): (r: Option<Pdl1Result>)
    ensures r.None? <==> forall k :: 0 <= k < |searches| ==> searches[k](text).None?
    ensures r.Some? ==> r.value.antibody == Pdl1Antibody
  {
    match FirstFound(text, searches)
    case None => None
    case Some(g) => Some(Pdl1Result(Pdl1Antibody, Pdl1Text(Strip(g))))
  }

  /** The result text is built from the stripped group of the first search that matches. */
  lemma Pdl1FromFirstMatch(text: string, searches: seq<string -> Option<PercentText>>)
    ensures var k := FirstTrue(Matched(text, searches));
      k < |searches| ==>
        Pdl1Results(text, searches) == Some(Pdl1Result(Pdl1Antibody, Pdl1Text(Strip(searches[k](text).value))))
  {
    FirstFoundIsFirstMatch(text, searches);
  }

  /** "< 1" reads Negative: it holds a '<'. */
  lemma Pdl1LessThanOneIsNegative()
    ensures Pdl1Negative("< 1")
  {
    var p := "< 1";
    assert p[0] == '<';
    assert ContainsChar(p, '<');
  }

  /** "0" reads Negative: its first integer is below 1. */
  lemma Pdl1ZeroIsNegative()
    ensures Pdl1Negative("0")
  {
    var p := ['0'];
    AllDigitsRun(p);
    assert DigitsValue(p) == 0 by { assert p[..0] == []; }
  }

  /** "50" reads Positive. */
  lemma Pdl1FiftyIsPositive()
    ensures !Pdl1Negative("50")
  {
    var p := ['5', '0'];
    assert !ContainsChar(p, '<');
    AllDigitsRun(p);
    assert DigitsValue(p) == 50 by {
      assert p[..1] == ['5'];
      assert p[..1][..0] == [];
    }
  }
}
