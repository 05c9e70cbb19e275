/**
 * The row list `create_excel_from_data` hands to the spreadsheet writer: one
 * NGS row per variant, then one IHC row when a PD-L1 result is found, and a
 * metadata-only default row when neither gave a row. Every row carries all 38
 * declared columns; the writer itself is not part of this model.
 */
module Rows {
  import opened Text
  import opened FieldResolver
  import opened VariantRecord
  import opened VariantTable
  import opened GeneticVariants
  import opened Biomarkers

  /** The declared columns, in spreadsheet order. */
  const Columns: seq<string> := [
    "Subject ID", "Trial ID", "Site ID", "Report Date", "Collection Date", "Gender", "Disease", "Panel",
    "Sensitivity (from Report)", "Specificity (from Report)", "Methodology", "Nucleic Acid", "Library Prep",
    "Platform", "Tumor Fraction (%)", "LOH", "Microsatellite Instability Status", "Tumor Mutational Burden (Muts/Mb)",
    "Gene with co-occurring result", "Transcript ID", "cDNA Change", "Amino Acid Change", "Build", "Chromosome",
    "Location", "Variant type", "Clinical significance", "Allele Fraction (%)", "Copy Number",
    "Gene Expression Qualitative", "dbSNP ID", "COSMIC ID", "Depth at Variant", "Genotype", "Zygosity",
    "Type of Region Analyzed", "IHC-PDL1_Antibody", "PDL1 Results"]

  /** The library-preparation text every variant row carries. */
  const LibraryPrepText: string :=
    "Hybrid capture-selected libraries are sequenced to high uniform depth (targeting >150X median coverage with >90% of exons at coverage >50X) and the sequnence data is analyzed to detect genomci variants and signatures."

  /** One spreadsheet row: one field per declared column, in the same order. */
  datatype Row = Row(
    subjectId: string, trialId: string, siteId: string, reportDate: string, collectionDate: string,
    gender: string, disease: string, panel: string, sensitivity: string, specificity: string,
    methodology: string, nucleicAcid: string, libraryPrep: string, platform: string, tumorFraction: string,
    loh: string, msiStatus: string, tmb: string, gene: string, transcript: string, cdnaChange: string,
    aaChange: string, build: string, chromosome: string, location: string, variantType: string,
    significance: string, alleleFraction: string, copyNumber: string, geneExpression: string,
    dbsnpId: string, cosmicId: string, depth: string, genotype: string, zygosity: string,
    regionType: string, pdl1Antibody: string, pdl1Results: string)

  /** The row's cells under `Columns`: what `pd.DataFrame(rows, columns=columns)` lays out. */
  function Cells(r: Row): (cs: seq<string>)
    ensures |cs| == |Columns| == 38
    ensures cs[0] == r.subjectId && cs[10] == r.methodology && cs[18] == r.gene && cs[37] == r.pdl1Results
  {
    [r.subjectId, r.trialId, r.siteId, r.reportDate, r.collectionDate, r.gender, r.disease, r.panel,
     r.sensitivity, r.specificity, r.methodology, r.nucleicAcid, r.libraryPrep, r.platform, r.tumorFraction,
     r.loh, r.msiStatus, r.tmb, r.gene, r.transcript, r.cdnaChange, r.aaChange, r.build, r.chromosome,
     r.location, r.variantType, r.significance, r.alleleFraction, r.copyNumber, r.geneExpression,
     r.dbsnpId, r.cosmicId, r.depth, r.genotype, r.zygosity, r.regionType, r.pdl1Antibody, r.pdl1Results]
  }

  // ---------------------------------------------------------------- report metadata

  /** The values every row shares, resolved once from the text. */
  datatype Meta = Meta(
    subjectId: string, trialId: string, siteId: string, reportDate: string, collectionDate: string,
    gender: string, disease: string, panel: string, sensitivity: string, specificity: string,
    tumorFraction: string, msiStatus: string, tmb: string)

  /** `s` occurs in itself. */
  lemma ContainsSelf(s: string)
    ensures Contains(s, s)
  {
    assert OccursAt(s, s, 0);
  }

  /** The subject ID: "000-111" when none was found or the one found holds the placeholder. */
  function SubjectId(found: string): (id: string)
    ensures id == "000-111" <==> found == NA || Contains(found, "000-111")
    ensures id != "000-111" ==> id == found
  {
    ContainsSelf("000-111");
    if found == NA || Contains(found, "000-111") then "000-111" else found
  }

  /** The trial ID, with the fixed fallback when none was found. */
  function TrialId(found: string): (id: string)
    ensures found == NA ==> id == "LY-1234"
    ensures found != NA ==> id == found
  {
    if found == NA then "LY-1234" else found
  }

  /** The `extract_field_value` calls of `create_excel_from_data`, with their names and defaults. */
  function ReportMeta(text: string, np: NamePatterns): (m: Meta)
    ensures m.subjectId == SubjectId(ExtractFieldValue(text, ["Subject ID", "Patient ID", "ID"], np, NA))
    ensures m.trialId == TrialId(ExtractFieldValue(text, ["Trial ID", "Study ID"], np, NA))
  {
    Meta(
      subjectId := SubjectId(ExtractFieldValue(text, ["Subject ID", "Patient ID", "ID"], np, NA)),
      trialId := TrialId(ExtractFieldValue(text, ["Trial ID", "Study ID"], np, NA)),
      siteId := ExtractFieldValue(text, ["Site ID", "Site"], np, "000"),
      reportDate := ExtractFieldValue(text, ["Report Date", "Date"], np, "01Feb2021"),
      collectionDate := ExtractFieldValue(text, ["Collection Date", "Sample Date"], np, "22Dec2020"),
      gender := ExtractFieldValue(text, ["Gender", "Sex"], np, "Female"),
      disease := ExtractFieldValue(text, ["Disease", "Diagnosis", "Cancer"], np, "Thyroid Gland Medullary Carcinoma"),
      panel := ExtractFieldValue(text, ["Panel", "Test"], np, "Omniseq Insight"),
      sensitivity := ExtractFieldValue(text, ["Sensitivity"], np, NA),
      specificity := ExtractFieldValue(text, ["Specificity"], np, NA),
      tumorFraction := ExtractFieldValue(text, ["Tumor Fraction", "Tumor %"], np, "30"),
      msiStatus := ExtractFieldValue(text, ["MSI", "Microsatellite"], np, "MS-Stable"),
      tmb := ExtractFieldValue(text, ["TMB", "Mutational Burden"], np, "4.3"))
  }

  // ---------------------------------------------------------------- gene backfill

  /** A record whose gene is empty or "N/A" takes the value of the text's "Gene" field. */
  function Backfilled(v: Variant, geneField: string): (w: Variant)
    ensures v.gene != [] && v.gene != NA ==> w == v
    ensures (v.gene == [] || v.gene == NA) ==> w == v.(gene := geneField)
  {
    if v.gene == [] || v.gene == NA then v.(gene := geneField) else v
  }

  function BackfillAll(vs: seq<Variant>, geneField: string): (ws: seq<Variant>)
    ensures |ws| == |vs|
    ensures forall i :: 0 <= i < |vs| ==> ws[i] == Backfilled(vs[i], geneField)
  {
    seq(|vs|, i requires 0 <= i < |vs| => Backfilled(vs[i], geneField))
  }

  // ---------------------------------------------------------------- rows

  /** The row of one variant: methodology NGS, the variant's own columns, no PD-L1 values. */
  function VariantRow(m: Meta, v: Variant): (r: Row)
    ensures r.methodology == "NGS" && r.subjectId == m.subjectId && r.gene == v.gene
    ensures r.pdl1Antibody == NA && r.pdl1Results == NA
  {
    Row(
      m.subjectId, m.trialId, m.siteId, m.reportDate, m.collectionDate, m.gender, m.disease, m.panel,
      m.sensitivity, m.specificity, "NGS", v.nucleicAcid, LibraryPrepText, NA, m.tumorFraction,
      NA, m.msiStatus, m.tmb, v.gene, v.transcript, v.cdnaChange, v.aaChange, v.build, v.chromosome,
      v.location, v.variantType, v.significance, v.alleleFraction, v.copyNumber, NA,
      v.dbsnpId, v.cosmicId, v.depth, v.genotype, v.zygosity, NA, NA, NA)
  }

  /** The PD-L1 row: methodology IHC, no variant columns, the antibody and the result text. */
  function Pdl1Row(m: Meta, p: Pdl1Result): (r: Row)
    ensures r.methodology == "IHC" && r.subjectId == m.subjectId && r.gene == NA
    ensures r.pdl1Antibody == p.antibody && r.pdl1Results == p.result
  {
    Row(
      m.subjectId, m.trialId, m.siteId, m.reportDate, m.collectionDate, m.gender, m.disease, m.panel,
      m.sensitivity, m.specificity, "IHC", NA, NA, NA, m.tumorFraction,
      NA, m.msiStatus, m.tmb, NA, NA, NA, NA, NA, NA,
      NA, NA, NA, NA, NA, NA,
      NA, NA, NA, NA, NA, NA, p.antibody, p.result)
  }

  /**
   * The default row: "N/A" in every column, then the metadata, NGS and DNA.
   * Sensitivity and specificity are not among the updated keys.
   */
  function DefaultRow(m: Meta): (r: Row)
    ensures r.methodology == "NGS" && r.nucleicAcid == "DNA" && r.subjectId == m.subjectId
    ensures r.gene == NA && r.sensitivity == NA && r.specificity == NA && r.pdl1Results == NA
  {
    Row(
      m.subjectId, m.trialId, m.siteId, m.reportDate, m.collectionDate, m.gender, m.disease, m.panel,
      NA, NA, "NGS", "DNA", NA, NA, m.tumorFraction,
      NA, m.msiStatus, m.tmb, NA, NA, NA, NA, NA, NA,
      NA, NA, NA, NA, NA, NA,
      NA, NA, NA, NA, NA, NA, NA, NA)
  }

  /** The rows before the default-row check: the variant rows, then the PD-L1 row if any. */
  function FoundRows(m: Meta, vs: seq<Variant>, pdl1: Option<Pdl1Result>): (rows: seq<Row>)
    ensures |rows| == |vs| + (if pdl1.Some? then 1 else 0)
    ensures forall i :: 0 <= i < |vs| ==> rows[i] == VariantRow(m, vs[i])
    ensures pdl1.Some? ==> rows[|vs|] == Pdl1Row(m, pdl1.value)
  {
    seq(|vs|, i requires 0 <= i < |vs| => VariantRow(m, vs[i]))
      + (if pdl1.Some? then [Pdl1Row(m, pdl1.value)] else [])
  }

  /** The row list, given the metadata, the variants and the PD-L1 result. */
  function RowsFor(m: Meta, vs: seq<Variant>, pdl1: Option<Pdl1Result>): (rows: seq<Row>)
    ensures rows != []
  {
    var found := FoundRows(m, vs, pdl1);
    if found == [] then [DefaultRow(m)] else found
  }

  /** The searches `create_excel_from_data` runs, beyond the field-name patterns. */
  datatype RowSearches = RowSearches(variants: Searches, genePatterns: seq<FindAll>, pdl1: seq<string -> Option<PercentText>>)

  /** The variants of the rows: those of `extract_genetic_variants`, each missing gene backfilled. */
  function RowVariants(text: string, np: NamePatterns, rs: RowSearches): (vs: seq<Variant>)
    ensures |vs| <= 5
  {
    BackfillAll(GeneticVariantsOf(text, rs.variants, rs.genePatterns), ExtractFieldValue(text, ["Gene"], np, NA))
  }

  /** The rows `create_excel_from_data` builds from the extracted full text. */
  function ClinicalRows(text: string, np: NamePatterns, rs: RowSearches): (rows: seq<Row>)
    ensures rows != []
  {
    RowsFor(ReportMeta(text, np), RowVariants(text, np, rs), Pdl1Results(text, rs.pdl1))
  }

  /**
   * The layout of the row list: one NGS row per variant in order, then the IHC
   * row exactly when a PD-L1 result was found, and the default row only when
   * there is neither; so there is always a row and never more than six.
   */
  lemma RowLayout(m: Meta, vs: seq<Variant>, pdl1: Option<Pdl1Result>)
    requires |vs| <= 5
    ensures var rows := RowsFor(m, vs, pdl1);
      && 1 <= |rows| <= 6
      && (vs == [] && pdl1.None? <==> rows == [DefaultRow(m)])
      && (vs != [] || pdl1.Some? ==> |rows| == |vs| + (if pdl1.Some? then 1 else 0))
      && (forall i :: 0 <= i < |vs| ==> rows[i] == VariantRow(m, vs[i]) && rows[i].methodology == "NGS")
      && (pdl1.Some? ==> rows[|vs|].methodology == "IHC" && rows[|vs|].pdl1Results == pdl1.value.result)
      && (forall i :: 0 <= i < |rows| ==> rows[i].subjectId == m.subjectId)
      && (forall i :: 0 <= i < |rows| ==> (rows[i].methodology == "IHC" <==> pdl1.Some? && i == |vs|))
  {
    var found := FoundRows(m, vs, pdl1);
    if vs != [] {
      assert found[0].libraryPrep == LibraryPrepText != NA == DefaultRow(m).libraryPrep;
    } else if pdl1.Some? {
      assert found[0].methodology == "IHC" != DefaultRow(m).methodology;
    }
  }

  /**
   * The subject ID of every row, whatever the variants and the PD-L1 result:
   * "000-111" exactly when none was found or the one found holds the placeholder.
   */
  lemma SubjectIdsNormalised(text: string, np: NamePatterns, vs: seq<Variant>, pdl1: Option<Pdl1Result>)
    requires |vs| <= 5
    ensures var rows := RowsFor(ReportMeta(text, np), vs, pdl1);
      var found := ExtractFieldValue(text, ["Subject ID", "Patient ID", "ID"], np, NA);
      forall i :: 0 <= i < |rows| ==> (rows[i].subjectId == "000-111" <==> found == NA || Contains(found, "000-111"))
  {
    RowLayout(ReportMeta(text, np), vs, pdl1);
  }

  /** The spreadsheet gets between one and six rows, each in the layout of `RowLayout`. */
  lemma ClinicalRowsShape(text: string, np: NamePatterns, rs: RowSearches)
    ensures var rows := ClinicalRows(text, np, rs);
      && 1 <= |rows| <= 6
      && rows == RowsFor(ReportMeta(text, np), RowVariants(text, np, rs), Pdl1Results(text, rs.pdl1))
  {
    RowLayout(ReportMeta(text, np), RowVariants(text, np, rs), Pdl1Results(text, rs.pdl1));
  }

  /**
   * The IHC row's result text ends in " (Negative)" exactly when the percentage
   * the first matching PD-L1 search captured, stripped, reads negative.
   */
  lemma Pdl1RowSuffix(text: string, searches: seq<string -> Option<PercentText>>, m: Meta, vs: seq<Variant>)
    requires |vs| <= 5
    ensures var k := FirstTrue(Matched(text, searches));
      var rows := RowsFor(m, vs, Pdl1Results(text, searches));
      k < |searches| ==>
        var pct := Strip(searches[k](text).value);
        && rows[|vs|].methodology == "IHC"
        && (EndsWith(rows[|vs|].pdl1Results, NegativeSuffix) <==> Pdl1Negative(pct))
  {
    var k := FirstTrue(Matched(text, searches));
    if k < |searches| {
      Pdl1FromFirstMatch(text, searches);
      Pdl1SuffixIff(Strip(searches[k](text).value));
      RowLayout(m, vs, Pdl1Results(text, searches));
    }
  }

  // ---------------------------------------------------------------- the method

  /** The loop that fills in missing genes from the text's "Gene" field, in place. */
  method BackfillGenes(vs: seq<Variant>, geneField: string) returns (variants: seq<Variant>)
    ensures variants == BackfillAll(vs, geneField)
  {
    variants := vs;
    for i := 0 to |variants|
      invariant |variants| == |vs|
      invariant forall j :: 0 <= j < i ==> variants[j] == Backfilled(vs[j], geneField)
      invariant forall j :: i <= j < |variants| ==> variants[j] == vs[j]
    {
      if variants[i].gene == [] || variants[i].gene == NA {
        variants := variants[i := variants[i].(gene := geneField)];
      }
    }
  }

  /** The loop appending one row per variant, then the PD-L1 row. */
  method AppendRows(meta: Meta, variants: seq<Variant>, pdl1: Option<Pdl1Result>) returns (rows: seq<Row>)
    ensures rows == FoundRows(meta, variants, pdl1)
  {
    rows := [];
    for i := 0 to |variants|
      invariant rows == FoundRows(meta, variants[..i], None)
    {
      assert variants[..i + 1] == variants[..i] + [variants[i]];
      rows := rows + [VariantRow(meta, variants[i])];
    }
    assert variants[..|variants|] == variants;
    if pdl1.Some? {
      rows := rows + [Pdl1Row(meta, pdl1.value)];
    }
  }

  /** The row list from its parts: the found rows, or the default row when there are none. */
  method BuildRows(meta: Meta, variants: seq<Variant>, pdl1: Option<Pdl1Result>) returns (rows: seq<Row>)
    ensures rows == RowsFor(meta, variants, pdl1)
  {
    rows := AppendRows(meta, variants, pdl1);
    if rows == [] {
      rows := rows + [DefaultRow(meta)];
    }
  }

  /** `create_excel_from_data` up to the writer: backfill, variant rows, PD-L1 row, default row. */
  method CreateRows(text: string, np: NamePatterns, rs: RowSearches) returns (rows: seq<Row>)
    ensures rows == ClinicalRows(text, np, rs)
  {
    var meta := ReportMeta(text, np);
    var variants := ExtractGeneticVariants(text, rs.variants, rs.genePatterns);
    variants := BackfillGenes(variants, ExtractFieldValue(text, ["Gene"], np, NA));
    assert variants == RowVariants(text, np, rs);
    var pdl1 := Pdl1Results(text, rs.pdl1);
    rows := BuildRows(meta, variants, pdl1);
  }
}
