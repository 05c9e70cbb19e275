/**
 * `extract_genetic_variants` of pdf_extractor.py: the table strategy first, then
 * the gene-anchored regex phase over the whole text, then (only when nothing
 * was found) one bare record per mentioned gene, capped at five records.
 *
 * The four gene patterns are lazy and DOTALL, so their `re.finditer` results
 * stay abstract: for each pattern, the sequence of its matches, each with its
 * span, group 1 (the gene as the text spells it) and its later groups.
 */
module GeneticVariants {
  import opened Text
  import opened VariantRecord
  import opened VariantTable

  /** One match of a gene pattern: `match.start()`, `match.end()`, group 1 and groups 2, 3, … */
  datatype GeneMatch = GeneMatch(start: nat, end: nat, gene: string, later: seq<Option<string>>)

  /** `re.finditer(pattern, text, IGNORECASE | DOTALL)` for one gene pattern. */
  type FindAll = string -> seq<GeneMatch>

  /**
   * `len(match.groups()) >= n and match.group(n)`: group `n` exists, took part
   * in the match and captured something.
   */
  function Group(m: GeneMatch, n: nat): (g: Option<string>)
    requires n >= 2
    ensures g.Some? <==> n - 2 < |m.later| && m.later[n - 2].Some? && m.later[n - 2].value != []
    ensures g.Some? ==> g == m.later[n - 2]
  {
    if n - 2 < |m.later| && m.later[n - 2].Some? && m.later[n - 2].value != [] then m.later[n - 2] else None
  }

  /** `text[match.start():match.end()+200]`, where a missing group is looked for. */
  function Tail(text: string, m: GeneMatch): string {
    Slice(text, m.start, m.end + 200)
  }

  /** `text[max(0, match.start()-300):match.end()+300]`, where the keyword cues are looked for. */
  function Surroundings(text: string, m: GeneMatch): string {
    Slice(text, if m.start >= 300 then m.start - 300 else 0, m.end + 300)
  }

  /** Group `n` when it captured something, else what `search` finds after the match start. */
  function GroupOrSearch(text: string, m: GeneMatch, n: nat, search: string -> Option<string>): (r: string)
    requires n >= 2
    ensures Group(m, n).Some? ==> r == Group(m, n).value
    ensures Group(m, n).None? ==> r == CaptureOr(search, Tail(text, m), NA)
  {
    match Group(m, n)
    case Some(g) => g
    case None => CaptureOr(search, Tail(text, m), NA)
  }

  /** The significance cue of the regex phase: Pathogenic, then VUS, then Benign. */
  function RegexSignificance(ctx: string): (l: string)
    ensures ContainsCI(ctx, "pathogenic") ==> l == "Pathogenic"
    ensures !ContainsCI(ctx, "pathogenic") && (ContainsCI(ctx, "vus") || ContainsCI(ctx, "unknown significance"))
      ==> l == VusLabel
    ensures !ContainsCI(ctx, "pathogenic") && !ContainsCI(ctx, "vus") && !ContainsCI(ctx, "unknown significance")
      ==> l == (if ContainsCI(ctx, "benign") then "Benign" else NA)
  {
    if ContainsCI(ctx, "pathogenic") then "Pathogenic"
    else if ContainsCI(ctx, "vus") || ContainsCI(ctx, "unknown significance") then VusLabel
    else if ContainsCI(ctx, "benign") then "Benign"
    else NA
  }

  /** The type cue of the regex phase; a lone "deletion" only when no other cue applies. */
  function RegexType(ctx: string): (t: string)
    ensures t in {"Deletion-Frameshift", "Substitution-Missense", "Insertion", "Deletion", NA}
    ensures t == "Deletion-Frameshift" <==> ContainsCI(ctx, "deletion") && ContainsCI(ctx, "frameshift")
    ensures t == NA <==> (!ContainsCI(ctx, "deletion") && !ContainsCI(ctx, "insertion")
                          && !(ContainsCI(ctx, "substitution") && ContainsCI(ctx, "missense")))
    ensures t == "Deletion" ==> !ContainsCI(ctx, "insertion")
    ensures (!(ContainsCI(ctx, "deletion") && ContainsCI(ctx, "frameshift"))
             && ContainsCI(ctx, "substitution") && ContainsCI(ctx, "missense")) ==> t == "Substitution-Missense"
    ensures (!(ContainsCI(ctx, "deletion") && ContainsCI(ctx, "frameshift"))
             && !(ContainsCI(ctx, "substitution") && ContainsCI(ctx, "missense"))
             && ContainsCI(ctx, "insertion")) ==> t == "Insertion"
    ensures (!(ContainsCI(ctx, "substitution") && ContainsCI(ctx, "missense")) && !ContainsCI(ctx, "insertion")
             && ContainsCI(ctx, "deletion") && !ContainsCI(ctx, "frameshift")) ==> t == "Deletion"
  {
    if ContainsCI(ctx, "deletion") && ContainsCI(ctx, "frameshift") then "Deletion-Frameshift"
    else if ContainsCI(ctx, "substitution") && ContainsCI(ctx, "missense") then "Substitution-Missense"
    else if ContainsCI(ctx, "insertion") then "Insertion"
    else if ContainsCI(ctx, "deletion") then "Deletion"
    else NA
  }

  /** The record the regex phase builds for one match. */
  function MatchVariant(text: string, m: GeneMatch, sc: Searches): (v: Variant)
    ensures v.gene == m.gene && v.nucleicAcid == "DNA" && Untouched(v)
    ensures v.significance == RegexSignificance(Surroundings(text, m))
    ensures v.variantType == RegexType(Surroundings(text, m))
  {
    var ctx := Surroundings(text, m);
    BlankVariant(m.gene).(
      transcript := GroupOrSearch(text, m, 2, sc.transcript),
      cdnaChange := GroupOrSearch(text, m, 3, sc.cdna),
      aaChange := GroupOrSearch(text, m, 4, sc.aaMixed),
      location := ExonOr(sc, ctx, NA),
      significance := RegexSignificance(ctx),
      variantType := RegexType(ctx),
      alleleFraction := CaptureOr(sc.percent, ctx, NA),
      copyNumber := CaptureOr(sc.copyNumber, ctx, NA))
  }

  // ---------------------------------------------------------------- the regex phase

  /** The genes of the records so far, in order. */
  function Genes(vs: seq<Variant>): (gs: seq<string>)
    ensures |gs| == |vs|
    ensures forall i :: 0 <= i < |vs| ==> gs[i] == vs[i].gene
  {
    seq(|vs|, i requires 0 <= i < |vs| => vs[i].gene)
  }

  /** The records after the matches `ms` of one pattern: a match whose gene is already present is skipped. */
  function AddMatches(vs: seq<Variant>, ms: seq<GeneMatch>, text: string, sc: Searches): (r: seq<Variant>)
    ensures vs <= r && |r| <= |vs| + |ms|
    decreases |ms|
  {
    if ms == [] then vs
    else
      var prev := AddMatches(vs, ms[..|ms| - 1], text, sc);
      var m := ms[|ms| - 1];
      if m.gene in Genes(prev) then prev else prev + [MatchVariant(text, m, sc)]
  }

  /** The records after all gene patterns, each pattern's matches taken in order. */
  function RunPatterns(vs: seq<Variant>, finds: seq<FindAll>, text: string, sc: Searches): (r: seq<Variant>)
    ensures vs <= r
    decreases |finds|
  {
    if finds == [] then vs
    else AddMatches(RunPatterns(vs, finds[..|finds| - 1], text, sc), finds[|finds| - 1](text), text, sc)
  }

  /** No record at position `k` or later repeats the gene of an earlier record. */
  predicate FreshFrom(vs: seq<Variant>, k: nat) {
    forall i, j :: 0 <= i < j < |vs| && k <= j ==> vs[i].gene != vs[j].gene
  }

  /** A match adds a record only for a gene not yet present. */
  lemma {:induction false} AddMatchesFresh(vs: seq<Variant>, ms: seq<GeneMatch>, text: string, sc: Searches, k: nat)
    requires FreshFrom(vs, k)
    ensures FreshFrom(AddMatches(vs, ms, text, sc), k)
    decreases |ms|
  {
    if ms != [] {
      var prev := AddMatches(vs, ms[..|ms| - 1], text, sc);
      AddMatchesFresh(vs, ms[..|ms| - 1], text, sc, k);
      var m := ms[|ms| - 1];
      if m.gene !in Genes(prev) {
        var r := prev + [MatchVariant(text, m, sc)];
        forall i, j | 0 <= i < j < |r| && k <= j ensures r[i].gene != r[j].gene {
          if j == |prev| {
            assert Genes(prev)[i] == prev[i].gene;
          } else {
            assert r[i] == prev[i] && r[j] == prev[j];
          }
        }
      }
    }
  }

  lemma {:induction false} RunPatternsFresh(vs: seq<Variant>, finds: seq<FindAll>, text: string, sc: Searches, k: nat)
    requires FreshFrom(vs, k)
    ensures FreshFrom(RunPatterns(vs, finds, text, sc), k)
    decreases |finds|
  {
    if finds != [] {
      RunPatternsFresh(vs, finds[..|finds| - 1], text, sc, k);
      AddMatchesFresh(RunPatterns(vs, finds[..|finds| - 1], text, sc), finds[|finds| - 1](text), text, sc, k);
    }
  }

  /** Every record the matches add is the record of one of them. */
  lemma {:induction false} AddedFromMatches(vs: seq<Variant>, ms: seq<GeneMatch>, text: string, sc: Searches, i: nat)
      returns (j: nat)
    requires |vs| <= i < |AddMatches(vs, ms, text, sc)|
    ensures j < |ms| && AddMatches(vs, ms, text, sc)[i] == MatchVariant(text, ms[j], sc)
    decreases |ms|
  {
    var prev := AddMatches(vs, ms[..|ms| - 1], text, sc);
    if i < |prev| {
      j := AddedFromMatches(vs, ms[..|ms| - 1], text, sc, i);
      assert ms[..|ms| - 1][j] == ms[j];
    } else {
      j := |ms| - 1;
    }
  }

  /** A gene present in a prefix is present in the whole. */
  lemma GenesGrow(a: seq<Variant>, b: seq<Variant>, g: string)
    requires a <= b && g in Genes(a)
    ensures g in Genes(b)
  {
    var i :| 0 <= i < |a| && Genes(a)[i] == g;
    assert Genes(b)[i] == g;
  }

  /** Every match's gene is present afterwards: a match whose gene is new is added. */
  lemma {:induction false} AddMatchesCovers(vs: seq<Variant>, ms: seq<GeneMatch>, text: string, sc: Searches)
    ensures forall j :: 0 <= j < |ms| ==> ms[j].gene in Genes(AddMatches(vs, ms, text, sc))
    decreases |ms|
  {
    if ms != [] {
      var init := ms[..|ms| - 1];
      var prev := AddMatches(vs, init, text, sc);
      var r := AddMatches(vs, ms, text, sc);
      var m := ms[|ms| - 1];
      AddMatchesCovers(vs, init, text, sc);
      assert prev <= r;
      forall j | 0 <= j < |ms| ensures ms[j].gene in Genes(r) {
        if j < |ms| - 1 {
          assert init[j] == ms[j];
          GenesGrow(prev, r, ms[j].gene);
        } else if m.gene !in Genes(prev) {
          assert Genes(r)[|prev|] == m.gene;
        }
      }
    }
  }

  /** After all patterns, the gene of every match of every pattern is present. */
  lemma {:induction false} RunPatternsCovers(vs: seq<Variant>, finds: seq<FindAll>, text: string, sc: Searches)
    ensures forall p, j :: 0 <= p < |finds| && 0 <= j < |finds[p](text)| ==>
      finds[p](text)[j].gene in Genes(RunPatterns(vs, finds, text, sc))
    decreases |finds|
  {
    if finds != [] {
      var init := finds[..|finds| - 1];
      var prev := RunPatterns(vs, init, text, sc);
      var r := RunPatterns(vs, finds, text, sc);
      RunPatternsCovers(vs, init, text, sc);
      AddMatchesCovers(prev, finds[|finds| - 1](text), text, sc);
      forall p, j | 0 <= p < |finds| && 0 <= j < |finds[p](text)|
        ensures finds[p](text)[j].gene in Genes(r)
      {
        if p < |finds| - 1 {
          assert init[p] == finds[p];
          GenesGrow(prev, r, finds[p](text)[j].gene);
        }
      }
    }
  }

  // ---------------------------------------------------------------- bare mentions

  /** `mentioned_genes[:3]`. */
  function FirstMentioned(text: string): (gs: seq<string>)
    ensures |gs| <= 3
    ensures gs == FindMentionedGenes(text)[..Min(3, |FindMentionedGenes(text)|)]
  {
    var all := FindMentionedGenes(text);
    all[..Min(3, |all|)]
  }

  /** One blank DNA record per gene, in order. */
  function BlankVariants(gs: seq<string>): (vs: seq<Variant>)
    ensures |vs| == |gs|
    ensures forall i :: 0 <= i < |gs| ==> vs[i] == BlankVariant(gs[i])
  {
    seq(|gs|, i requires 0 <= i < |gs| => BlankVariant(gs[i]))
  }

  /** A prefix of a subsequence is a subsequence. */
  lemma {:induction false} PrefixSubsequence<T>(a: seq<T>, b: seq<T>, n: nat)
    requires n <= |a| && Subsequence(a, b)
    ensures Subsequence(a[..n], b)
    decreases |b|
  {
    if n > 0 {
      if a[0] == b[0] {
        assert a[..n][1..] == a[1..][..n - 1];
        PrefixSubsequence(a[1..], b[1..], n - 1);
      } else {
        PrefixSubsequence(a, b[1..], n);
      }
    }
  }

  /** The bare-mention genes: at most three, in `common_genes` order, each once, each mentioned. */
  lemma FirstMentionedOrdered(text: string)
    ensures Subsequence(FirstMentioned(text), CommonGenes)
    ensures Distinct(FirstMentioned(text))
    ensures forall g :: g in FirstMentioned(text) ==> g in CommonGenes && Mentions(text, g)
  {
    var all := FindMentionedGenes(text);
    FindMentionedGenesOrdered(text);
    PrefixSubsequence(all, CommonGenes, Min(3, |all|));
  }

  // ---------------------------------------------------------------- the cascade

  /** The records after the table records `table`: the regex phase, then bare mentions when still empty, capped. */
  function AfterTable(table: seq<Variant>, text: string, sc: Searches, finds: seq<FindAll>): (vs: seq<Variant>)
    ensures |vs| <= 5
  {
    var found := RunPatterns(table, finds, text, sc);
    var all := if found == [] then BlankVariants(FirstMentioned(text)) else found;
    all[..Min(5, |all|)]
  }

  /** What `extract_genetic_variants(text)` returns. */
  function GeneticVariantsOf(text: string, sc: Searches, finds: seq<FindAll>): (vs: seq<Variant>)
    ensures |vs| <= 5
  {
    AfterTable(VariantTableOf(text, sc), text, sc, finds)
  }

  /** `vs` and `table` agree wherever both have a record. */
  predicate AgreesWith(vs: seq<Variant>, table: seq<Variant>) {
    forall i :: 0 <= i < |vs| && i < |table| ==> vs[i] == table[i]
  }

  /** Cutting an extension of `table` down keeps it in agreement with `table` and keeps its fresh part fresh. */
  lemma CutExtension(table: seq<Variant>, found: seq<Variant>, n: nat)
    requires table <= found && FreshFrom(found, |table|) && n <= |found|
    ensures AgreesWith(found[..n], table) && FreshFrom(found[..n], |table|)
  {
    var vs := found[..n];
    forall i | 0 <= i < |vs| && i < |table| ensures vs[i] == table[i] {
      assert vs[i] == found[i];
    }
    forall i, j | 0 <= i < j < |vs| && |table| <= j ensures vs[i].gene != vs[j].gene {
      assert vs[i] == found[i] && vs[j] == found[j];
    }
  }

  /**
   * The cascade's ordering and deduplication after any table result: the table
   * records come first, unchanged; no later record repeats a gene already
   * present; bare mentions appear only when both strategies found nothing.
   */
  lemma AfterTableOrder(table: seq<Variant>, text: string, sc: Searches, finds: seq<FindAll>)
    ensures var vs := AfterTable(table, text, sc, finds);
      && AgreesWith(vs, table)
      && FreshFrom(vs, |table|)
      && (table != [] ==> vs != [])
      && (RunPatterns(table, finds, text, sc) == [] ==> vs == BlankVariants(FirstMentioned(text)))
    ensures table[..Min(5, |table|)] <= AfterTable(table, text, sc, finds)
    ensures var found := RunPatterns(table, finds, text, sc);
      found != [] ==> AfterTable(table, text, sc, finds) == found[..Min(5, |found|)]
  {
    var found := RunPatterns(table, finds, text, sc);
    assert FreshFrom(table, |table|);
    RunPatternsFresh(table, finds, text, sc, |table|);
    if found != [] {
      CutExtension(table, found, Min(5, |found|));
    } else {
      var gs := FirstMentioned(text);
      FirstMentionedOrdered(text);
      var vs := BlankVariants(gs);
      assert vs[..Min(5, |vs|)] == vs;
      forall i, j | 0 <= i < j < |vs| ensures vs[i].gene != vs[j].gene {
        assert vs[i].gene == gs[i] && vs[j].gene == gs[j];
      }
    }
  }

  /** The same for `extract_genetic_variants`, whose table records are those of `parse_variant_table`. */
  lemma CascadeOrder(text: string, sc: Searches, finds: seq<FindAll>)
    ensures var table := VariantTableOf(text, sc);
      var vs := GeneticVariantsOf(text, sc, finds);
      && AgreesWith(vs, table)
      && FreshFrom(vs, |table|)
      && (table != [] ==> vs != [])
    ensures var table := VariantTableOf(text, sc);
      table[..Min(5, |table|)] <= GeneticVariantsOf(text, sc, finds)
    ensures var found := RunPatterns(VariantTableOf(text, sc), finds, text, sc);
      found != [] ==> GeneticVariantsOf(text, sc, finds) == found[..Min(5, |found|)]
  {
    AfterTableOrder(VariantTableOf(text, sc), text, sc, finds);
  }

  /** Every record the regex phase adds is the record of a match of one of the patterns. */
  lemma {:induction false} RegexRecordsFromMatches(
      vs: seq<Variant>, finds: seq<FindAll>, text: string, sc: Searches, i: nat)
      returns (p: nat, j: nat)
    requires |vs| <= i < |RunPatterns(vs, finds, text, sc)|
    ensures p < |finds| && j < |finds[p](text)|
    ensures RunPatterns(vs, finds, text, sc)[i] == MatchVariant(text, finds[p](text)[j], sc)
    decreases |finds|
  {
    var init := finds[..|finds| - 1];
    var prev := RunPatterns(vs, init, text, sc);
    if i < |prev| {
      p, j := RegexRecordsFromMatches(vs, init, text, sc, i);
      assert init[p] == finds[p];
    } else {
      p := |finds| - 1;
      j := AddedFromMatches(prev, finds[p](text), text, sc, i);
    }
  }

  // ---------------------------------------------------------------- the method

  /** `any(v.get('gene') == gene_name for v in variants)`. */
  method AnyWithGene(vs: seq<Variant>, gene: string) returns (found: bool)
    ensures found <==> gene in Genes(vs)
  {
    found := false;
    var i := 0;
    while i < |vs|
      invariant 0 <= i <= |vs|
      invariant !found
      invariant forall j :: 0 <= j < i ==> vs[j].gene != gene
    {
      if vs[i].gene == gene {
        assert Genes(vs)[i] == gene;
        return true;
      }
      i := i + 1;
    }
  }

  /** The inner loop over one pattern's matches. */
  method AddPatternMatches(vs0: seq<Variant>, ms: seq<GeneMatch>, text: string, sc: Searches)
      returns (vs: seq<Variant>)
    ensures vs == AddMatches(vs0, ms, text, sc)
  {
    vs := vs0;
    for i := 0 to |ms|
      invariant vs == AddMatches(vs0, ms[..i], text, sc)
    {
      assert ms[..i + 1][..i] == ms[..i];
      var seen := AnyWithGene(vs, ms[i].gene);
      if !seen {
        vs := vs + [MatchVariant(text, ms[i], sc)];
      }
    }
    assert ms[..|ms|] == ms;
  }

  /** The outer loop over the gene patterns, starting from the table records. */
  method AddAllPatterns(table: seq<Variant>, finds: seq<FindAll>, text: string, sc: Searches)
      returns (variants: seq<Variant>)
    ensures variants == RunPatterns(table, finds, text, sc)
  {
    variants := table;
    for p := 0 to |finds|
      invariant variants == RunPatterns(table, finds[..p], text, sc)
    {
      assert finds[..p + 1][..p] == finds[..p];
      variants := AddPatternMatches(variants, finds[p](text), text, sc);
    }
    assert finds[..|finds|] == finds;
  }

  /** The bare-mention loop: one blank record for each of the first three mentioned genes. */
  method MentionedVariants(text: string) returns (variants: seq<Variant>)
    ensures variants == BlankVariants(FirstMentioned(text))
  {
    var mentioned := FindMentionedGenes(text);
    var first := mentioned[..Min(3, |mentioned|)];
    variants := [];
    for i := 0 to |first|
      invariant variants == BlankVariants(first[..i])
    {
      variants := variants + [BlankVariant(first[i])];
    }
    assert first[..|first|] == first;
  }

  /** `extract_genetic_variants(text)`. */
  method ExtractGeneticVariants(text: string, sc: Searches, finds: seq<FindAll>) returns (variants: seq<Variant>)
    ensures variants == GeneticVariantsOf(text, sc, finds)
  {
    variants := [];
    var table := ParseVariantTable(text, sc);
    if table != [] {
      variants := variants + table;
    }
    assert variants == table;
    variants := AddAllPatterns(variants, finds, text, sc);
    if variants == [] {
      variants := MentionedVariants(text);
    }
    variants := variants[..Min(5, |variants|)];
  }
}
