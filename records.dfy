/**
 * The record builders of pdf_extractor.py (`extract_genetic_report_data`,
 * `extract_ihc_report_data`) and the decision `extract_data_from_pdf` makes
 * once it has the text: OCR replacement, the redaction short-circuit, and
 * otherwise both records, always both (there is no report-type classifier).
 *
 * A record is the dictionary the source builds: keys assigned in order, each
 * value resolved from that key's rules.
 */
module Records {
  import opened Text
  import opened FieldResolver
  import opened TextGates
  import opened Biomarkers

  // ---------------------------------------------------------------- dictionaries

  /** The keys of `fs`, in order. */
  function KeysOf(fs: seq<(string, string)>): (ks: seq<string>)
    ensures |ks| == |fs|
    ensures forall i :: 0 <= i < |fs| ==> ks[i] == fs[i].0
  {
    seq(|fs|, i requires 0 <= i < |fs| => fs[i].0)
  }

  lemma KeysOfAppend(fs: seq<(string, string)>, gs: seq<(string, string)>)
    ensures KeysOf(fs + gs) == KeysOf(fs) + KeysOf(gs)
  {
  }

  /** `data[k] = v` for each pair in order, starting from `{}`. */
  function Assign(fs: seq<(string, string)>): (m: map<string, string>)
    ensures forall k :: k in m <==> k in KeysOf(fs)
  {
    if fs == [] then map[]
    else
      var init := fs[..|fs| - 1];
      var m := Assign(init)[fs[|fs| - 1].0 := fs[|fs| - 1].1];
      assert forall k :: k in KeysOf(fs) <==> k in KeysOf(init) || k == fs[|fs| - 1].0 by {
        assert KeysOf(fs) == KeysOf(init) + [fs[|fs| - 1].0];
      }
      m
  }

  /** An assignment is what the dictionary holds when no later pair reassigns its key. */
  lemma {:induction false} AssignAt(fs: seq<(string, string)>, i: nat)
    requires i < |fs|
    requires forall j :: i < j < |fs| ==> fs[j].0 != fs[i].0
    ensures fs[i].0 in Assign(fs) && Assign(fs)[fs[i].0] == fs[i].1
  {
    if i < |fs| - 1 {
      var init := fs[..|fs| - 1];
      AssignAt(init, i);
    }
  }

  /** Every value of the dictionary is the value of some pair. */
  lemma {:induction false} AssignValues(fs: seq<(string, string)>, k: string) returns (i: nat)
    requires k in Assign(fs)
    ensures i < |fs| && fs[i] == (k, Assign(fs)[k])
  {
    var init := fs[..|fs| - 1];
    if fs[|fs| - 1].0 == k {
      i := |fs| - 1;
    } else {
      i := AssignValues(init, k);
    }
  }

  predicate DistinctKeys(ks: seq<string>) {
    forall i, j :: 0 <= i < j < |ks| ==> ks[i] != ks[j]
  }

  // ---------------------------------------------------------------- extract_genetic_report_data

  /** The keys of the genetic record, in the order the source assigns them. */
  const GeneticKeys: seq<string> := [
    "Disease_name", "Panel", "Methodology", "Nucleic_acid", "Library_prep", "Platform",
    "Tumour_fraction", "LOH", "Microsatellite_Instability_Status", "Tumour_Mutational_Burden",
    "Gene_cooccurring_RB1", "Gene_cooccurring_RET", "Gene_cooccurring_NPM1", "Gene_cooccurring_CD27",
    "CDNA_change", "Amino_acid_change", "Variant_type", "Clinical_significance", "Allele_Fraction",
    "IHC_PDL1_Antibody", "PDL1_result", "Gene_name", "Alteration_mutation", "Location_exon",
    "Variant_frequency", "Transcript_ID", "ClinVar_ID", "Pathogenicity", "Assay_name",
    "Sensitivity", "Specificity", "PPA", "NPA", "Reporting_date", "Subject_ID", "Year_of_birth", "Gender"]

  /**
   * How many of each field's rules come first with a capture group, and how many
   * follow without one (the bare transcript, RCV/VCV and Male|Female, M|F rules).
   */
  const CapturingCounts: seq<nat> := [
    5, 4, 5, 4, 4, 4, 6, 3, 4, 5, 3, 3, 3, 3, 3, 3, 3, 4, 4, 4, 5, 3, 4, 4, 3, 3, 2, 4, 3, 2, 2, 2, 2, 4, 4, 4, 2]
  const PlainCounts: seq<nat> := [
    0, 0, 0, 0, 0, 0, 0, 0, 0, 0, 0, 0, 0, 0, 0, 0, 0, 0, 0, 0, 0, 0, 0, 0, 0, 1, 2, 0, 0, 0, 0, 0, 0, 0, 0, 0, 2]

  /** The rule list `extract_multiple_patterns` receives for each key of the genetic record. */
  datatype FieldRules = FieldRules(key: string, rules: seq<Rule>)

  /** A rule table laid out as the source's: its keys in order, each list's capturing rules before the others. */
  predicate GeneticTable(table: seq<FieldRules>) {
    && |table| == |GeneticKeys|
    && forall i :: 0 <= i < |table| ==>
      && table[i].key == GeneticKeys[i]
      && |table[i].rules| == CapturingCounts[i] + PlainCounts[i]
      && (forall j :: 0 <= j < CapturingCounts[i] ==> table[i].rules[j].Capturing?)
      && (forall j :: CapturingCounts[i] <= j < |table[i].rules| ==> table[i].rules[j].Plain?)
  }

  /** The pairs the source assigns: each key with the resolution of its rules. */
  function GeneticPairs(text: string, table: seq<FieldRules>): (fs: seq<(string, string)>)
    ensures |fs| == |table|
    ensures forall i :: 0 <= i < |table| ==>
      fs[i] == (table[i].key, ExtractMultiplePatterns(text, table[i].rules, "N/A"))
  {
    seq(|table|, i requires 0 <= i < |table| => (table[i].key, ExtractMultiplePatterns(text, table[i].rules, "N/A")))
  }

  /** `extract_genetic_report_data(full_text, pages_text)`; the page texts are not read. */
  function GeneticReport(text: string, table: seq<FieldRules>): (m: map<string, string>)
    requires GeneticTable(table)
    ensures forall k :: k in m <==> k in GeneticKeys
    ensures forall k :: k in m ==> m[k] == "N/A" || (m[k] != [] && Normalised(m[k]))
  {
    var fs := GeneticPairs(text, table);
    var m := Assign(fs);
    assert KeysOf(fs) == GeneticKeys;
    forall k | k in m ensures m[k] == "N/A" || (m[k] != [] && Normalised(m[k])) {
      var i := AssignValues(fs, k);
    }
    m
  }

  /** Where a key sits in `GeneticKeys`, or -1 for any other string. */
  function KeyPosition(k: string): int {
    if k == "Disease_name" then 0
    else if k == "Panel" then 1
    else if k == "Methodology" then 2
    else if k == "Nucleic_acid" then 3
    else if k == "Library_prep" then 4
    else if k == "Platform" then 5
    else if k == "Tumour_fraction" then 6
    else if k == "LOH" then 7
    else if k == "Microsatellite_Instability_Status" then 8
    else if k == "Tumour_Mutational_Burden" then 9
    else if k == "Gene_cooccurring_RB1" then 10
    else if k == "Gene_cooccurring_RET" then 11
    else if k == "Gene_cooccurring_NPM1" then 12
    else if k == "Gene_cooccurring_CD27" then 13
    else if k == "CDNA_change" then 14
    else if k == "Amino_acid_change" then 15
    else if k == "Variant_type" then 16
    else if k == "Clinical_significance" then 17
    else if k == "Allele_Fraction" then 18
    else if k == "IHC_PDL1_Antibody" then 19
    else if k == "PDL1_result" then 20
    else if k == "Gene_name" then 21
    else if k == "Alteration_mutation" then 22
    else if k == "Location_exon" then 23
    else if k == "Variant_frequency" then 24
    else if k == "Transcript_ID" then 25
    else if k == "ClinVar_ID" then 26
    else if k == "Pathogenicity" then 27
    else if k == "Assay_name" then 28
    else if k == "Sensitivity" then 29
    else if k == "Specificity" then 30
    else if k == "PPA" then 31
    else if k == "NPA" then 32
    else if k == "Reporting_date" then 33
    else if k == "Subject_ID" then 34
    else if k == "Year_of_birth" then 35
    else if k == "Gender" then 36
    else -1
  }

  lemma KeyPositions0()
    ensures forall i :: 0 <= i < 10 ==> KeyPosition(GeneticKeys[i]) == i
  {
  }

  lemma KeyPositions10()
    ensures forall i :: 10 <= i < 20 ==> KeyPosition(GeneticKeys[i]) == i
  {
  }

  lemma KeyPositions20()
    ensures forall i :: 20 <= i < 30 ==> KeyPosition(GeneticKeys[i]) == i
  {
  }

  lemma KeyPositions30()
    ensures forall i :: 30 <= i < 37 ==> KeyPosition(GeneticKeys[i]) == i
  {
  }

  /** No key of the genetic record is assigned twice: each key sits at its own position. */
  lemma GeneticKeysDistinct()
    ensures DistinctKeys(GeneticKeys)
  {
    KeyPositions0();
    KeyPositions10();
    KeyPositions20();
    KeyPositions30();
    assert forall i :: 0 <= i < |GeneticKeys| ==> KeyPosition(GeneticKeys[i]) == i;
  }

  /** Each value of the genetic record is what `extract_multiple_patterns` makes of that key's rules. */
  lemma GeneticValue(text: string, table: seq<FieldRules>, i: nat)
    requires GeneticTable(table) && i < |table|
    ensures GeneticReport(text, table)[GeneticKeys[i]] == ExtractMultiplePatterns(text, table[i].rules, "N/A")
  {
    GeneticKeysDistinct();
    AssignAt(GeneticPairs(text, table), i);
  }

  /** A list of capturing rules followed by rules without a group loses nothing by dropping the latter. */
  lemma {:induction false} WithoutPlainTail(rules: seq<Rule>, n: nat)
    requires n <= |rules|
    requires forall j :: 0 <= j < n ==> rules[j].Capturing?
    requires forall j :: n <= j < |rules| ==> rules[j].Plain?
    ensures WithoutPlain(rules) == rules[..n]
    decreases |rules|
  {
    if rules != [] {
      WithoutPlainTail(rules[1..], if n > 0 then n - 1 else 0);
      if n > 0 {
        assert rules[..n] == [rules[0]] + rules[1..][..n - 1];
      }
    }
  }

  /**
   * The rules without a group (`NM_[0-9]+\.[0-9]+`, `RCV[0-9]+`, `VCV[0-9]+`,
   * `Male|Female`, `M|F`) never decide a value: every field is resolved by its
   * capturing rules alone, so a report that only says "Female" has Gender "N/A".
   */
  lemma PlainRulesNeverDecide(text: string, table: seq<FieldRules>, i: nat)
    requires GeneticTable(table) && i < |table|
    ensures GeneticReport(text, table)[GeneticKeys[i]]
         == ExtractMultiplePatterns(text, table[i].rules[..CapturingCounts[i]], "N/A")
  {
    GeneticValue(text, table, i);
    PlainRulesIgnored(text, table[i].rules, "N/A");
    WithoutPlainTail(table[i].rules, CapturingCounts[i]);
  }

  // ---------------------------------------------------------------- extract_ihc_report_data

  /** The keys resolved by a single rule before the score, and those after the interpretation. */
  const IhcLeadingKeys: seq<string> := [
    "Disease_name", "Panel", "Tumour_type", "Biopsy_location", "IHC_test_name_FolR1",
    "IHC_test_name_PDL1", "Clone", "Score_percent_positive"]
  const IhcPatientKeys: seq<string> := ["Reporting_date", "Subject_ID", "Year_of_birth", "Gender"]

  const IhcKeys: seq<string> :=
    IhcLeadingKeys + ["Expression_cutoff_criteria", "Final_interpretation"] + IhcPatientKeys

  /**
   * The rules of `extract_ihc_report_data`: one per leading and patient key,
   * the `≥N%…=…positive` cut-off rule and its `N%…cut-off` fallback, and the
   * FOLR1 searches.
   */
  datatype IhcRules = IhcRules(
    leading: seq<Rule>,
    cutoff: Rule,
    cutoffFallback: Rule,
    folr1: Folr1Rules,
    patient: seq<Rule>)

  predicate IhcShape(rules: IhcRules) {
    |rules.leading| == |IhcLeadingKeys| && |rules.patient| == |IhcPatientKeys|
  }

  /** The cut-off: the first rule's value, or the fallback rule's when the first gave "N/A". */
  function CutoffValue(text: string, rules: IhcRules): (r: string)
    ensures ExtractPattern(text, rules.cutoff, "N/A") != "N/A" ==> r == ExtractPattern(text, rules.cutoff, "N/A")
    ensures ExtractPattern(text, rules.cutoff, "N/A") == "N/A" ==> r == ExtractPattern(text, rules.cutoffFallback, "N/A")
  {
    var first := ExtractPattern(text, rules.cutoff, "N/A");
    if first == "N/A" then ExtractPattern(text, rules.cutoffFallback, "N/A") else first
  }

  function SinglePairs(text: string, keys: seq<string>, rules: seq<Rule>): (fs: seq<(string, string)>)
    requires |keys| == |rules|
    ensures |fs| == |keys|
    ensures forall i :: 0 <= i < |keys| ==> fs[i] == (keys[i], ExtractPattern(text, rules[i], "N/A"))
    ensures KeysOf(fs) == keys
  {
    seq(|keys|, i requires 0 <= i < |keys| => (keys[i], ExtractPattern(text, rules[i], "N/A")))
  }

  function IhcPairs(text: string, rules: IhcRules): (fs: seq<(string, string)>)
    requires IhcShape(rules)
    ensures |fs| == 14 && KeysOf(fs) == IhcKeys
    ensures fs[8] == ("Expression_cutoff_criteria", CutoffValue(text, rules))
    ensures fs[9] == ("Final_interpretation", Folr1Interpretation(text, rules.folr1))
    ensures forall i :: 0 <= i < 8 ==> fs[i] == (IhcKeys[i], ExtractPattern(text, rules.leading[i], "N/A"))
    ensures forall i :: 10 <= i < 14 ==> fs[i] == (IhcKeys[i], ExtractPattern(text, rules.patient[i - 10], "N/A"))
  {
    var leading := SinglePairs(text, IhcLeadingKeys, rules.leading);
    var middle := [("Expression_cutoff_criteria", CutoffValue(text, rules)),
                   ("Final_interpretation", Folr1Interpretation(text, rules.folr1))];
    var patient := SinglePairs(text, IhcPatientKeys, rules.patient);
    KeysOfAppend(leading, middle);
    KeysOfAppend(leading + middle, patient);
    assert KeysOf(middle) == ["Expression_cutoff_criteria", "Final_interpretation"];
    leading + middle + patient
  }

  /** `extract_ihc_report_data(full_text, pages_text)`; the page texts are not read. */
  function IhcReport(text: string, rules: IhcRules): (m: map<string, string>)
    requires IhcShape(rules)
    ensures forall k :: k in m <==> k in IhcKeys
    ensures "Final_interpretation" in m && m["Final_interpretation"] in {"positive", "negative", "N/A"}
  {
    var fs := IhcPairs(text, rules);
    IhcLaterKeys(fs);
    AssignAt(fs, 9);
    Assign(fs)
  }

  lemma IhcLaterKeys(fs: seq<(string, string)>)
    requires |fs| == 14 && KeysOf(fs) == IhcKeys
    ensures forall j :: 8 < j < 14 ==> fs[j].0 != fs[8].0
    ensures forall j :: 9 < j < 14 ==> fs[j].0 != fs[9].0
  {
    assert forall j :: 0 <= j < 14 ==> fs[j].0 == IhcKeys[j];
  }

  /**
   * The IHC cut-off comes from the `≥N%…=…positive` rule when it resolves and
   * from the `N%…cut-off` rule otherwise; the interpretation is the FOLR1 call.
   */
  lemma IhcCutoffAndInterpretation(text: string, rules: IhcRules)
    requires IhcShape(rules)
    ensures var m := IhcReport(text, rules);
      && m["Expression_cutoff_criteria"] == CutoffValue(text, rules)
      && m["Final_interpretation"] == Folr1Interpretation(text, rules.folr1)
  {
    IhcMiddleAssigned(IhcPairs(text, rules));
  }

  /** No key of the IHC record is assigned twice. */
  lemma IhcKeysDistinct()
    ensures DistinctKeys(IhcKeys)
  {
  }

  /**
   * Every IHC value other than the cut-off and the interpretation is what
   * `extract_pattern` makes of that key's single rule, with default "N/A".
   */
  lemma IhcValue(text: string, rules: IhcRules, i: nat)
    requires IhcShape(rules) && i < 14 && i != 8 && i != 9
    ensures IhcKeys[i] in IhcReport(text, rules)
    ensures IhcReport(text, rules)[IhcKeys[i]]
         == ExtractPattern(text, if i < 8 then rules.leading[i] else rules.patient[i - 10], "N/A")
  {
    var fs := IhcPairs(text, rules);
    IhcKeysDistinct();
    assert forall j :: 0 <= j < 14 ==> fs[j].0 == IhcKeys[j];
    AssignAt(fs, i);
  }

  /** The two middle pairs of the IHC list survive into the dictionary. */
  lemma IhcMiddleAssigned(fs: seq<(string, string)>)
    requires |fs| == 14 && KeysOf(fs) == IhcKeys
    ensures fs[8].0 in Assign(fs) && Assign(fs)[fs[8].0] == fs[8].1
    ensures fs[9].0 in Assign(fs) && Assign(fs)[fs[9].0] == fs[9].1
  {
    IhcLaterKeys(fs);
    AssignAt(fs, 8);
    AssignAt(fs, 9);
  }

  // ---------------------------------------------------------------- extract_data_from_pdf

  const RedactionNotice: string :=
    "This PDF appears to be redacted/anonymized with placeholder text. For real data extraction, please use a non-redacted medical report."

  /** The result of `extract_data_from_pdf` once text has been obtained. */
  datatype Extraction = Extraction(
    genetic: map<string, string>,
    ihc: map<string, string>,
    fullText: string,
    notice: Option<string>)

  /**
   * `extract_data_from_pdf` after the text layer: `layerText` is the joined page
   * text and `ocrText` what the OCR collaborator returns when it is asked.
   */
  function ExtractData(layerText: string, ocrText: string, table: seq<FieldRules>, ihc: IhcRules): (e: Extraction)
    requires GeneticTable(table) && IhcShape(ihc)
    ensures e.fullText == ChosenText(layerText, ocrText)
    ensures Redacted(e.fullText) ==> e.genetic == RedactedNotice() && e.ihc == RedactedNotice() && e.notice == Some(RedactionNotice)
    ensures !Redacted(e.fullText) ==> (e.notice.None?
                                       && (forall k :: k in e.genetic <==> k in GeneticKeys)
                                       && (forall k :: k in e.ihc <==> k in IhcKeys))
  {
    var full := ChosenText(layerText, ocrText);
    if Redacted(full) then Extraction(RedactedNotice(), RedactedNotice(), full, Some(RedactionNotice))
    else Extraction(GeneticReport(full, table), IhcReport(full, ihc), full, None)
  }

  /** Both records are always built from the same text: no report kind is chosen. */
  lemma BothRecordsBuilt(layerText: string, ocrText: string, table: seq<FieldRules>, ihc: IhcRules)
    requires GeneticTable(table) && IhcShape(ihc)
    requires !Redacted(ChosenText(layerText, ocrText))
    ensures var e := ExtractData(layerText, ocrText, table, ihc);
      e.genetic == GeneticReport(e.fullText, table) && e.ihc == IhcReport(e.fullText, ihc)
  {
  }

  /**
   * A text of more than 50 words, every one the placeholder 000-111, takes the
   * redacted branch when OCR has nothing to add: every field of both records is
   * the redaction notice.
   */
  lemma PlaceholderDocumentRedacted(layerText: string, table: seq<FieldRules>, ihc: IhcRules)
    requires GeneticTable(table) && IhcShape(ihc)
    requires |Strip(layerText)| >= 100 && |Tokens(layerText)| > 50
    requires forall k :: 0 <= k < |Tokens(layerText)| ==> Tokens(layerText)[k] == Placeholder
    ensures var e := ExtractData(layerText, [], table, ihc);
      && e.notice == Some(RedactionNotice)
      && (forall k :: k in e.genetic ==> e.genetic[k] == RedactedValue)
      && (forall k :: k in e.ihc ==> e.ihc[k] == RedactedValue)
  {
    PlaceholderTextIsRedacted(layerText);
    var e := ExtractData(layerText, [], table, ihc);
    assert e.fullText == layerText;
    assert e.genetic == RedactedNotice() && e.ihc == RedactedNotice();
  }
}
