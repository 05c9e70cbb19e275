/**
 * The variant record of pdf_extractor.py and `parse_mutation_row`, which fills
 * one record from the columns of a table line.
 *
 * A table line is cut into columns the way `re.split(r'\s{2,}|\t', line)`
 * does (SplitColumns). The only regex kept abstract here is the transcript
 * search `(NM_[0-9]+\.[0-9]+)` over the whole line.
 */
module VariantRecord {
  import opened Text

  const NA: string := "N/A"
  const VusLabel: string := "Variants of Unknown Significance(VUS)"

  /** The 17 keys every variant dictionary carries. */
  datatype Variant = Variant(
    gene: string,
    nucleicAcid: string,
    transcript: string,
    cdnaChange: string,
    aaChange: string,
    location: string,
    variantType: string,
    significance: string,
    alleleFraction: string,
    copyNumber: string,
    build: string,
    chromosome: string,
    dbsnpId: string,
    cosmicId: string,
    depth: string,
    genotype: string,
    zygosity: string)

  /** The record every strategy starts from: DNA, and "N/A" everywhere else. */
  function BlankVariant(gene: string): (v: Variant)
    ensures v.gene == gene && v.nucleicAcid == "DNA"
    ensures v.transcript == NA && v.cdnaChange == NA && v.aaChange == NA && v.location == NA
    ensures v.variantType == NA && v.significance == NA && v.alleleFraction == NA && v.copyNumber == NA
    ensures Untouched(v)
  {
    Variant(gene, "DNA", NA, NA, NA, NA, NA, NA, NA, NA, NA, NA, NA, NA, NA, NA, NA)
  }

  /** The seven keys no strategy ever fills. */
  predicate Untouched(v: Variant) {
    && v.build == NA && v.chromosome == NA && v.dbsnpId == NA
    && v.cosmicId == NA && v.depth == NA && v.genotype == NA && v.zygosity == NA
  }

  // ---------------------------------------------------------------- columns

  /** A column separator starts `s`: two or more whitespace characters, or a tab. */
  predicate RunStart(s: string) {
    |s| >= 2 && IsSpace(s[0]) && IsSpace(s[1])
  }

  /** A column holds no separator: no tab and no two adjacent whitespace characters. */
  predicate NoColumnBreak(p: string) {
    forall i :: 0 <= i < |p| ==> p[i] != '\t' && (i + 1 < |p| ==> !(IsSpace(p[i]) && IsSpace(p[i + 1])))
  }

  lemma NoColumnBreakCons(c: char, p: string, next: string)
    requires NoColumnBreak(p) && c != '\t'
    requires p == [] || (next != [] && p[0] == next[0])
    requires IsSpace(c) && next != [] ==> !IsSpace(next[0])
    ensures NoColumnBreak([c] + p)
  {
    var r := [c] + p;
    forall i | 1 <= i < |r| ensures r[i] == p[i - 1] { }
  }

  /** `re.split(r'\s{2,}|\t', s)`. */
  function SplitColumns(s: string): (parts: seq<string>)
    ensures |parts| >= 1
    ensures |parts[0]| <= |s| && parts[0] == s[..|parts[0]|]
    ensures forall k :: 0 <= k < |parts| ==> NoColumnBreak(parts[k])
    decreases |s|
  {
    if s == [] then [[]]
    else if RunStart(s) then [[]] + SplitColumns(DropSpaces(s))
    else if s[0] == '\t' then [[]] + SplitColumns(s[1..])
    else
      var rest := SplitColumns(s[1..]);
      ColumnsCons(s, rest);
      [[s[0]] + rest[0]] + rest[1..]
  }

  /** An ordinary first character extends the first column of the rest of the line. */
  lemma ColumnsCons(s: string, rest: seq<string>)
    requires s != [] && !RunStart(s) && s[0] != '\t'
    requires |rest| >= 1 && |rest[0]| <= |s| - 1 && rest[0] == s[1..][..|rest[0]|]
    requires forall k :: 0 <= k < |rest| ==> NoColumnBreak(rest[k])
    ensures var parts := [[s[0]] + rest[0]] + rest[1..];
      |parts[0]| <= |s| && parts[0] == s[..|parts[0]|]
      && forall k :: 0 <= k < |parts| ==> NoColumnBreak(parts[k])
  {
    var parts := [[s[0]] + rest[0]] + rest[1..];
    NoColumnBreakCons(s[0], rest[0], s[1..]);
    assert parts[0] == s[..|parts[0]|];
    forall k | 1 <= k < |parts| ensures NoColumnBreak(parts[k]) {
      assert parts[k] == rest[k];
    }
  }

  /** What `re.split(r'\s{2,}|\t', ...)` cuts out: a lone tab, or a run of two or more whitespace characters. */
  predicate Separator(t: string) {
    t == "\t" || (|t| >= 2 && forall i :: 0 <= i < |t| ==> IsSpace(t[i]))
  }

  /** The parts with the separators between them, in order. */
  function Interleave(parts: seq<string>, seps: seq<string>): string
    requires |parts| == |seps| + 1
    decreases |seps|
  {
    if seps == [] then parts[0] else parts[0] + (seps[0] + Interleave(parts[1..], seps[1..]))
  }

  /** A run of two or more whitespace characters at the start of `s` is one separator. */
  lemma RunSeparator(s: string)
    requires RunStart(s)
    ensures var r := DropSpaces(s);
      |r| <= |s| - 2 && Separator(s[..|s| - |r|]) && s == s[..|s| - |r|] + r && (r == [] || !IsSpace(r[0]))
  {
    var r := DropSpaces(s);
    var k := |s| - |r|;
    if r != [] { assert s[k] == r[0]; }
    var sep := s[..k];
    forall i | 0 <= i < |sep| ensures IsSpace(sep[i]) {
      assert sep[i] == s[i];
    }
    assert s == sep + r;
  }

  /** A tab not followed by whitespace is one separator. */
  lemma TabSeparator(s: string)
    requires s != [] && s[0] == '\t' && !RunStart(s)
    ensures var r := s[1..];
      Separator(s[..1]) && s == s[..1] + r && (r == [] || !IsSpace(r[0]))
  {
    assert s[..1] == "\t";
  }

  /** The separator the split removes at the start of `s`, and the text after it. */
  lemma SeparatorAtStart(s: string) returns (r: string)
    requires s != [] && (RunStart(s) || s[0] == '\t')
    ensures r == if RunStart(s) then DropSpaces(s) else s[1..]
    ensures |r| < |s| && Separator(s[..|s| - |r|]) && s == s[..|s| - |r|] + r
    ensures r == [] || !IsSpace(r[0])
  {
    if RunStart(s) {
      RunSeparator(s);
      r := DropSpaces(s);
    } else {
      TabSeparator(s);
      r := s[1..];
    }
  }

  /** The first column of a text that does not start with whitespace does not either. */
  lemma FirstColumnStart(r: string)
    requires r == [] || !IsSpace(r[0])
    ensures SplitColumns(r)[0] == [] || !IsSpace(SplitColumns(r)[0][0])
  {
    var first := SplitColumns(r)[0];
    if first != [] { assert first[0] == r[0]; }
  }

  lemma InterleaveCons(c: char, rest: seq<string>, seps: seq<string>)
    requires |rest| == |seps| + 1
    ensures Interleave([[c] + rest[0]] + rest[1..], seps) == [c] + Interleave(rest, seps)
  {
    var parts := [[c] + rest[0]] + rest[1..];
    if seps != [] {
      assert parts[1..] == rest[1..];
      var tail := seps[0] + Interleave(rest[1..], seps[1..]);
      ConsAppend(c, rest[0], tail);
    }
  }

  lemma ConsAppend(c: char, a: string, b: string)
    ensures ([c] + a) + b == [c] + (a + b)
  {
  }

  /**
   * `parts` and `seps` are the pieces of `s`: one fewer separator than
   * parts, each a separator, giving `s` back when interleaved, and every part
   * after the first starting after a whole separator run.
   */
  predicate PiecesOf(s: string, parts: seq<string>, seps: seq<string>) {
    && |seps| + 1 == |parts|
    && (forall k :: 0 <= k < |seps| ==> Separator(seps[k]))
    && Interleave(parts, seps) == s
    && (forall k :: 1 <= k < |parts| ==> parts[k] == [] || !IsSpace(parts[k][0]))
  }

  /** A separator in front adds an empty first part. */
  lemma PiecesAfterSeparator(sep: string, r: string, tail: seq<string>, rest: seq<string>)
    requires Separator(sep)
    requires PiecesOf(r, tail, rest)
    requires tail[0] == [] || !IsSpace(tail[0][0])
    ensures PiecesOf(sep + r, [[]] + tail, [sep] + rest)
  {
    var parts := [[]] + tail;
    var seps := [sep] + rest;
    assert parts[0] == [] && parts[1..] == tail && seps[1..] == rest;
    assert Interleave(parts, seps) == [] + (sep + Interleave(tail, rest));
    forall k | 1 <= k < |parts| ensures parts[k] == [] || !IsSpace(parts[k][0]) {
      assert parts[k] == tail[k - 1];
    }
    forall k | 0 <= k < |seps| ensures Separator(seps[k]) {
      if k > 0 { assert seps[k] == rest[k - 1]; }
    }
  }

  /** An ordinary character in front joins the first part. */
  lemma PiecesAfterChar(c: char, r: string, tail: seq<string>, seps: seq<string>)
    requires PiecesOf(r, tail, seps)
    ensures PiecesOf([c] + r, [[c] + tail[0]] + tail[1..], seps)
  {
    var parts := [[c] + tail[0]] + tail[1..];
    InterleaveCons(c, tail, seps);
    forall k | 1 <= k < |parts| ensures parts[k] == tail[k] { }
  }

  /**
   * The columns are the pieces of the line: put back together with the
   * separators the split removed, they give the line again, and every column
   * after the first starts where a separator run ended.
   */
  lemma {:induction false} SplitColumnsJoin(s: string) returns (seps: seq<string>)
    ensures PiecesOf(s, SplitColumns(s), seps)
    decreases |s|
  {
    if s == [] {
      seps := [];
    } else if RunStart(s) || s[0] == '\t' {
      var r := SeparatorAtStart(s);
      FirstColumnStart(r);
      var rest := SplitColumnsJoin(r);
      seps := [s[..|s| - |r|]] + rest;
      PiecesAfterSeparator(s[..|s| - |r|], r, SplitColumns(r), rest);
    } else {
      seps := SplitColumnsJoin(s[1..]);
      PiecesAfterChar(s[0], s[1..], SplitColumns(s[1..]), seps);
      assert [s[0]] + s[1..] == s;
    }
  }

  /** A line with no separator is one column, the line itself. */
  lemma {:induction false} OneColumnLine(s: string)
    requires NoColumnBreak(s)
    ensures SplitColumns(s) == [s]
    decreases |s|
  {
    if s != [] {
      assert !RunStart(s) && s[0] != '\t';
      assert NoColumnBreak(s[1..]) by {
        forall i | 0 <= i < |s[1..]| ensures s[1..][i] == s[i + 1] { }
      }
      OneColumnLine(s[1..]);
      assert [s[0]] + s[1..] == s;
    }
  }

  /** Column `k` of the split line, stripped; empty when the line has fewer columns. */
  function Column(parts: seq<string>, k: nat): string {
    if k < |parts| then Strip(parts[k]) else []
  }

  // ---------------------------------------------------------------- column shapes

  /** `re.match(r'^[A-Z][A-Z0-9-]+$', s)` with `len(s) <= 10`. */
  predicate GeneShaped(s: string) {
    2 <= |s| <= 10 && IsUpper(s[0])
    && forall i :: 1 <= i < |s| ==> IsUpper(s[i]) || IsDigit(s[i]) || s[i] == '-'
  }

  /** `re.match(r'[cp]\.[A-Za-z0-9>_del]+', s)`: only the first three characters decide. */
  predicate CdnaShaped(s: string) {
    |s| >= 3 && (s[0] == 'c' || s[0] == 'p') && s[1] == '.'
    && (IsLetter(s[2]) || IsDigit(s[2]) || s[2] == '>' || s[2] == '_')
  }

  /** `re.match(r'[A-Z][0-9]+[A-Z*XfsPfs]+', s)`. */
  predicate AaShaped(s: string) {
    |s| >= 3 && IsUpper(s[0])
    && var d := DigitPrefix(s[1..]);
    d != [] && 1 + |d| < |s| && (IsUpper(s[1 + |d|]) || s[1 + |d|] in "*fs")
  }

  /** Where `parse_mutation_row` files a non-empty alteration. */
  predicate AlterationIsCdna(a: string) {
    CdnaShaped(a) || (!AaShaped(a) && (Contains(a, "c.") || Contains(a, "p.")))
  }

  /** The location column is kept when it mentions an exon or is a number. */
  predicate LocationAccepted(c: string) {
    ContainsCI(c, "exon") || AllDigits(c)
  }

  /** The significance filed for a ClinVar column. */
  function ClinVarLabel(c: string): (l: string)
    ensures ContainsCI(c, "pathogen") ==> l == "Pathogenic"
    ensures !ContainsCI(c, "pathogen") && (ContainsCI(c, "vus") || ContainsCI(c, "uncertain")) ==> l == VusLabel
    ensures l != "Pathogenic" && l != VusLabel && l != "Benign" ==> l == c
    ensures !ContainsCI(c, "pathogen") && !ContainsCI(c, "vus") && !ContainsCI(c, "uncertain")
      ==> l == (if ContainsCI(c, "benign") then "Benign" else c)
  {
    if ContainsCI(c, "pathogen") then "Pathogenic"
    else if ContainsCI(c, "vus") || ContainsCI(c, "uncertain") then VusLabel
    else if ContainsCI(c, "benign") then "Benign"
    else c
  }

  /** Column 1 becomes the gene only when it has the gene-name shape. */
  function GeneField(parts: seq<string>): (g: string)
    ensures g != NA <==> GeneShaped(Column(parts, 0))
    ensures g != NA ==> g == Column(parts, 0)
  {
    var c := Column(parts, 0);
    assert GeneShaped(c) ==> c != NA by {
      if c == NA { assert !IsUpper(c[1]) && !IsDigit(c[1]) && c[1] != '-'; }
    }
    if c != [] && GeneShaped(c) then c else NA
  }

  /** Column 2 goes to the cDNA change, or otherwise to the amino-acid change; the pair of them. */
  function AlterationFields(parts: seq<string>): (ca: (string, string))
    ensures Column(parts, 1) == [] ==> ca == (NA, NA)
    ensures Column(parts, 1) != [] && AlterationIsCdna(Column(parts, 1)) ==> ca == (Column(parts, 1), NA)
    ensures Column(parts, 1) != [] && !AlterationIsCdna(Column(parts, 1)) ==> ca == (NA, Column(parts, 1))
  {
    var a := Column(parts, 1);
    if a == [] then (NA, NA)
    else if AlterationIsCdna(a) then (a, NA)
    else (NA, a)
  }

  /** The transcript column is used when it holds "NM_". */
  function ColumnTranscript(parts: seq<string>): (t: string)
    ensures t != NA ==> t == Column(parts, 5) && Contains(t, "NM_")
    ensures Column(parts, 5) != [] && Contains(Column(parts, 5), "NM_") ==> t == Column(parts, 5)
  {
    var c := Column(parts, 5);
    if c != [] && Contains(c, "NM_") then c else NA
  }

  /** The line's own transcript is used only when column 6 gave none. */
  function TranscriptField(parts: seq<string>, line: string, findTranscript: string -> Option<string>): (t: string)
    ensures ColumnTranscript(parts) != NA ==> t == ColumnTranscript(parts)
    ensures t != ColumnTranscript(parts) ==> ColumnTranscript(parts) == NA && findTranscript(line) == Some(t)
    ensures ColumnTranscript(parts) == NA && findTranscript(line).Some? ==> t == findTranscript(line).value
  {
    var c := ColumnTranscript(parts);
    if c == NA && findTranscript(line).Some? then findTranscript(line).value else c
  }

  /** Column 3 is kept as the location when it mentions an exon or is a number. */
  function LocationField(parts: seq<string>): (l: string)
    ensures l != NA ==> l == Column(parts, 2) && LocationAccepted(l)
    ensures LocationAccepted(Column(parts, 2)) && Column(parts, 2) != [] ==> l == Column(parts, 2)
  {
    var c := Column(parts, 2);
    if c != [] && LocationAccepted(c) then c else NA
  }

  /** Column 4 gives the allele fraction: the first number in it. */
  function AlleleField(parts: seq<string>): (f: string)
    ensures f != NA ==> f == FirstNumber(Column(parts, 3)) && f != []
    ensures f == NA <==> !HasDigit(Column(parts, 3))
  {
    var c := Column(parts, 3);
    if c != [] && HasDigit(c) then
      var n := FirstNumber(c);
      assert n != NA by { assert IsDigit(n[0]); }
      n
    else NA
  }

  /** Column 5 gives the significance label. */
  function SignificanceField(parts: seq<string>): (l: string)
    ensures Column(parts, 4) == [] ==> l == NA
    ensures Column(parts, 4) != [] ==> l == ClinVarLabel(Column(parts, 4))
  {
    var c := Column(parts, 4);
    if c != [] then ClinVarLabel(c) else NA
  }

  /** Column 7 gives the variant type unless it is empty or literally "N/A". */
  function TypeField(parts: seq<string>): (t: string)
    ensures t == NA || t == Column(parts, 6)
    ensures Column(parts, 6) != [] ==> t == Column(parts, 6)
  {
    var c := Column(parts, 6);
    if c != [] && c != NA then c else NA
  }

  /** The copy number read from the whole line: a 2-3 digit number strictly between 10 and 200. */
  function RowCopyNumber(line: string): (c: string)
    ensures c != NA ==> TwoOrThreeDigits(line) == Some(c) && 10 < DigitsValue(c) < 200
    ensures c == NA ==> TwoOrThreeDigits(line).None? || !(10 < DigitsValue(TwoOrThreeDigits(line).value) < 200)
  {
    match TwoOrThreeDigits(line)
    case None => NA
    case Some(d) => if 10 < DigitsValue(d) < 200 then d else NA
  }

  // ---------------------------------------------------------------- parse_mutation_row

  /**
   * The record `parse_mutation_row(parts, line)` returns, key by key.
   * `findTranscript` is the search `(NM_[0-9]+\.[0-9]+)`.
   */
  function MutationRow(parts: seq<string>, line: string, findTranscript: string -> Option<string>): (v: Variant)
    ensures v.nucleicAcid == "DNA" && Untouched(v)
    ensures Column(parts, 1) != [] <==> (v.cdnaChange == NA) != (v.aaChange == NA) || Column(parts, 1) == NA
  {
    var ca := AlterationFields(parts);
    Variant(
      gene := GeneField(parts),
      nucleicAcid := "DNA",
      transcript := TranscriptField(parts, line, findTranscript),
      cdnaChange := ca.0,
      aaChange := ca.1,
      location := LocationField(parts),
      variantType := TypeField(parts),
      significance := SignificanceField(parts),
      alleleFraction := AlleleField(parts),
      copyNumber := RowCopyNumber(line),
      build := NA, chromosome := NA, dbsnpId := NA, cosmicId := NA,
      depth := NA, genotype := NA, zygosity := NA)
  }

  /** `parse_mutation_row(parts, full_line)`: the record filled column by column. */
  method ParseMutationRow(parts: seq<string>, line: string, findTranscript: string -> Option<string>)
      returns (v: Variant)
    ensures v == MutationRow(parts, line, findTranscript)
  {
    v := BlankVariant(NA);
    v := FillGene(v, parts);
    v := FillAlteration(v, parts);
    v := FillLocation(v, parts);
    v := FillAllele(v, parts);
    v := FillSignificance(v, parts);
    v := FillColumnTranscript(v, parts);
    v := FillType(v, parts);
    var found := findTranscript(line);
    if found.Some? && v.transcript == NA {
      v := v.(transcript := found.value);
    }
    var copy := TwoOrThreeDigits(line);
    if copy.Some? && 10 < DigitsValue(copy.value) < 200 {
      v := v.(copyNumber := copy.value);
    }
  }

  method FillGene(v0: Variant, parts: seq<string>) returns (v: Variant)
    requires v0.gene == NA
    ensures v == v0.(gene := GeneField(parts))
  {
    v := v0;
    var gene := Column(parts, 0);
    if gene != [] && GeneShaped(gene) {
      v := v.(gene := gene);
    }
  }

  method FillAlteration(v0: Variant, parts: seq<string>) returns (v: Variant)
    requires v0.cdnaChange == NA && v0.aaChange == NA
    ensures v == v0.(cdnaChange := AlterationFields(parts).0, aaChange := AlterationFields(parts).1)
  {
    v := v0;
    var alteration := Column(parts, 1);
    if alteration != [] {
      if CdnaShaped(alteration) {
        v := v.(cdnaChange := alteration);
      } else if AaShaped(alteration) {
        v := v.(aaChange := alteration);
      } else if Contains(alteration, "c.") || Contains(alteration, "p.") {
        v := v.(cdnaChange := alteration);
      } else {
        v := v.(aaChange := alteration);
      }
    }
  }

  method FillLocation(v0: Variant, parts: seq<string>) returns (v: Variant)
    requires v0.location == NA
    ensures v == v0.(location := LocationField(parts))
  {
    v := v0;
    var location := Column(parts, 2);
    if location != [] && (ContainsCI(location, "exon") || AllDigits(location)) {
      v := v.(location := location);
    }
  }

  method FillAllele(v0: Variant, parts: seq<string>) returns (v: Variant)
    requires v0.alleleFraction == NA
    ensures v == v0.(alleleFraction := AlleleField(parts))
  {
    v := v0;
    var vaf := Column(parts, 3);
    if vaf != [] && HasDigit(vaf) {
      v := v.(alleleFraction := FirstNumber(vaf));
    }
  }

  method FillSignificance(v0: Variant, parts: seq<string>) returns (v: Variant)
    requires v0.significance == NA
    ensures v == v0.(significance := SignificanceField(parts))
  {
    v := v0;
    var clinvar := Column(parts, 4);
    if clinvar != [] {
      v := v.(significance := ClinVarLabel(clinvar));
    }
  }

  method FillColumnTranscript(v0: Variant, parts: seq<string>) returns (v: Variant)
    requires v0.transcript == NA
    ensures v == v0.(transcript := ColumnTranscript(parts))
  {
    v := v0;
    var transcript := Column(parts, 5);
    if transcript != [] && Contains(transcript, "NM_") {
      v := v.(transcript := transcript);
    }
  }

  method FillType(v0: Variant, parts: seq<string>) returns (v: Variant)
    requires v0.variantType == NA
    ensures v == v0.(variantType := TypeField(parts))
  {
    v := v0;
    var varType := Column(parts, 6);
    if varType != [] && varType != NA {
      v := v.(variantType := varType);
    }
  }
}
