/**
 * The table strategy of the variant extractor (`parse_variant_table`,
 * `extract_marker_details_section`), its line-by-line fallback
 * (`fallback_gene_extraction`, `extract_variant_details_from_context`) and the
 * mention scan `find_mentioned_genes`.
 *
 * Regexes with lazy or DOTALL parts, and the capture searches over a context,
 * are abstract searches bundled in Searches. The header test, the `\b` gene
 * mentions and the keyword cues are written out.
 */
module VariantTable {
  import opened Text
  import opened VariantRecord

  /** The regex searches the extractor uses, each returning its capture group. */
  datatype Searches = Searches(
    transcript: string -> Option<string>,    // (NM_[0-9]+\.[0-9]+)
    cdna: string -> Option<string>,          // ([cp]\.[A-Za-z0-9>_del]+)
    aaUpper: string -> Option<string>,       // ([A-Z][0-9]+[A-Z*XfsPfs]+[0-9]*)
    aaMixed: string -> Option<string>,       // ([A-Za-z][0-9]+[A-Za-z*XfsPfs]+[0-9]*)
    exon: string -> Option<string>,          // exon\s*(\d+), case-insensitive: the digits
    shortPercent: string -> Option<string>,  // (\d{1,2}(?:\.\d+)?)%
    percent: string -> Option<string>,       // (\d+(?:\.\d+)?)%
    copyNumber: string -> Option<string>,    // copy\s*number[:\s]*(\d+), case-insensitive
    sections: seq<string -> Option<string>>) // the four lazy, DOTALL section patterns

  function Min(a: int, b: int): int { if a < b then a else b }

  // ---------------------------------------------------------------- extract_marker_details_section

  /** The whole match of the first section pattern that matches, or "" when none does. */
  function MarkerSection(text: string, sc: Searches): (r: string)
    ensures (forall k :: 0 <= k < |sc.sections| ==> sc.sections[k](text).None?) ==> r == []
    ensures r != [] ==> exists k :: 0 <= k < |sc.sections| && sc.sections[k](text) == Some(r)
  {
    FirstFoundIsFirstMatch(text, sc.sections);
    match FirstFound(text, sc.sections)
    case None => []
    case Some(s) => s
  }

  /** The text `parse_variant_table` goes on with: the marker section, or the whole text. */
  function SectionOrText(text: string, sc: Searches): (r: string)
    ensures MarkerSection(text, sc) == [] ==> r == text
    ensures MarkerSection(text, sc) != [] ==> r == MarkerSection(text, sc)
  {
    var section := MarkerSection(text, sc);
    if section == [] then text else section
  }

  // ---------------------------------------------------------------- header line

  /** The first position at or after `i` where `w` occurs in `s`. */
  function IndexFrom(s: string, w: string, i: nat): (r: Option<nat>)
    requires i <= |s|
    ensures r.Some? ==> i <= r.value <= |s| - |w| && OccursAt(s, w, r.value)
    ensures forall j :: i <= j <= |s| - |w| && (r.None? || j < r.value) ==> !OccursAt(s, w, j)
    decreases |s| - i
  {
    if i + |w| > |s| then None
    else if OccursAt(s, w, i) then Some(i)
    else IndexFrom(s, w, i + 1)
  }

  /**
   * `re.search('w0.*w1.*…', t)` on a single line: the words occur in order
   * without overlapping. Each word is taken at its earliest occurrence.
   */
  predicate InOrder(t: string, ws: seq<string>)
    decreases |ws|
  {
    ws == [] ||
    match IndexFrom(t, ws[0], 0)
    case None => false
    case Some(p) => InOrder(t[p + |ws[0]|..], ws[1..])
  }

  /** Words found in order in a suffix are found in order in the whole string. */
  lemma {:induction false} InOrderSuffix(v: string, u: string, ws: seq<string>)
    requires InOrder(u, ws)
    ensures InOrder(v + u, ws)
    decreases |ws|
  {
    if ws != [] {
      var w, t := ws[0], v + u;
      var pu := IndexFrom(u, w, 0).value;
      assert t[|v| + pu..|v| + pu + |w|] == u[pu..pu + |w|];
      assert OccursAt(t, w, |v| + pu);
      var pt := IndexFrom(t, w, 0).value;
      assert pt <= |v| + pu;
      var gap := t[pt + |w|..|v| + pu + |w|];
      assert t[pt + |w|..] == gap + u[pu + |w|..];
      InOrderSuffix(gap, u[pu + |w|..], ws[1..]);
    }
  }

  /**
   * Taking the earliest occurrence loses nothing: wherever `w` occurs, if the
   * remaining words follow it in order, the whole list is found in order.
   */
  lemma EarliestSuffices(t: string, w: string, rest: seq<string>, q: nat)
    requires q <= |t| - |w| && OccursAt(t, w, q)
    requires InOrder(t[q + |w|..], rest)
    ensures InOrder(t, [w] + rest)
  {
    var ws := [w] + rest;
    assert ws[0] == w && ws[1..] == rest;
    var p := IndexFrom(t, w, 0).value;
    assert p <= q;
    var gap := t[p + |w|..q + |w|];
    assert t[p + |w|..] == gap + t[q + |w|..];
    InOrderSuffix(gap, t[q + |w|..], rest);
  }

  const FullHeader: seq<string> := ["gene", "alteration", "location", "vaf", "clinvar", "transcriptid", "type", "pathway"]
  const ShortHeader: seq<string> := ["gene", "transcript", "cdna", "amino", "location", "type"]

  /** Either header regex of `parse_variant_table`, case-insensitively. */
  predicate HeaderLine(line: string) {
    InOrder(Lower(line), FullHeader) || InOrder(Lower(line), ShortHeader)
  }

  /** The index of the first element satisfying `p`. */
  function FirstWhere<T>(xs: seq<T>, p: T -> bool): (k: Option<nat>)
    ensures k.Some? ==> k.value < |xs| && p(xs[k.value])
    ensures forall j :: 0 <= j < |xs| && (k.None? || j < k.value) ==> !p(xs[j])
  {
    if xs == [] then None
    else if p(xs[0]) then Some(0)
    else
      match FirstWhere(xs[1..], p)
      case None => None
      case Some(k) => Some(k + 1)
  }

  /** Elements after one that satisfies `p` do not move the first index. */
  lemma {:induction false} FirstWhereAppend<T>(xs: seq<T>, ys: seq<T>, p: T -> bool)
    requires FirstWhere(xs, p).Some?
    ensures FirstWhere(xs + ys, p) == FirstWhere(xs, p)
  {
    if !p(xs[0]) {
      assert (xs + ys)[1..] == xs[1..] + ys;
      FirstWhereAppend(xs[1..], ys, p);
    }
  }

  /** The index of the first header line. */
  function FirstHeader(lines: seq<string>): (h: Option<nat>)
    ensures h.Some? ==> h.value < |lines| && HeaderLine(lines[h.value])
    ensures forall j :: 0 <= j < |lines| && (h.None? || j < h.value) ==> !HeaderLine(lines[j])
  {
    FirstWhere(lines, HeaderLine)
  }

  // ---------------------------------------------------------------- data rows

  /** What one line under the header contributes: a record with a gene, or nothing. */
  function TableRow(line: string, findTranscript: string -> Option<string>): (r: Option<Variant>)
    ensures r.Some? ==> r.value.gene != NA && GeneShaped(r.value.gene) && r.value.nucleicAcid == "DNA"
  {
    var l := Strip(line);
    if |l| < 10 then None
    else
      var parts := SplitColumns(l);
      if |parts| < 3 then None
      else
        var v := MutationRow(parts, l, findTranscript);
        if v.gene != NA then Some(v) else None
  }

  predicate AllNamed(vs: seq<Variant>) {
    forall k :: 0 <= k < |vs| ==> vs[k].gene != NA && GeneShaped(vs[k].gene)
  }

  /** What `f` yields for the elements of `xs`, in order, skipping None. */
  function Collect<T, U>(xs: seq<T>, f: T -> Option<U>): (ys: seq<U>)
    ensures |ys| <= |xs|
  {
    if xs == [] then []
    else
      var prev := Collect(xs[..|xs| - 1], f);
      match f(xs[|xs| - 1])
      case None => prev
      case Some(y) => prev + [y]
  }

  lemma CollectSnoc<T, U>(xs: seq<T>, x: T, f: T -> Option<U>)
    ensures Collect(xs + [x], f) == Collect(xs, f) + (if f(x).Some? then [f(x).value] else [])
  {
    assert (xs + [x])[..|xs|] == xs;
  }

  /** Every collected value is what `f` yields for some element: the index of that element. */
  lemma {:induction false} CollectSource<T, U>(xs: seq<T>, f: T -> Option<U>, k: nat) returns (j: nat)
    requires k < |Collect(xs, f)|
    ensures j < |xs| && f(xs[j]) == Some(Collect(xs, f)[k])
  {
    var init := xs[..|xs| - 1];
    var prev := Collect(init, f);
    CollectSnoc(init, xs[|xs| - 1], f);
    assert init + [xs[|xs| - 1]] == xs;
    if k < |prev| {
      j := CollectSource(init, f, k);
      assert xs[j] == init[j];
    } else {
      j := |xs| - 1;
    }
  }

  lemma TakeSnoc<T>(s: seq<T>, i: nat)
    requires i < |s|
    ensures s[..i + 1] == s[..i] + [s[i]]
  {
  }

  lemma TakeAll<T>(s: seq<T>)
    ensures s[..|s|] == s
  {
  }

  lemma SliceOfAppend<T>(a: seq<T>, b: seq<T>, i: nat, j: nat)
    requires i <= j <= |a|
    ensures (a + b)[i..j] == a[i..j]
  {
  }

  /** TableRow as a function value. */
  function RowReader(findTranscript: string -> Option<string>): string -> Option<Variant> {
    line => TableRow(line, findTranscript)
  }

  /** The records kept from `ls`, in line order. */
  function Kept(ls: seq<string>, findTranscript: string -> Option<string>): (vs: seq<Variant>)
    ensures |vs| <= |ls|
  {
    Collect(ls, RowReader(findTranscript))
  }

  /** Every kept record is the record of one of the lines, and has a gene-shaped name. */
  lemma KeptRowsNamed(ls: seq<string>, findTranscript: string -> Option<string>)
    ensures forall k :: 0 <= k < |Kept(ls, findTranscript)| ==>
      exists j :: 0 <= j < |ls| && TableRow(ls[j], findTranscript) == Some(Kept(ls, findTranscript)[k])
    ensures AllNamed(Kept(ls, findTranscript))
  {
    var f := RowReader(findTranscript);
    var kept := Kept(ls, findTranscript);
    forall k | 0 <= k < |kept|
      ensures exists j :: 0 <= j < |ls| && TableRow(ls[j], findTranscript) == Some(kept[k])
      ensures kept[k].gene != NA && GeneShaped(kept[k].gene)
    {
      var j := CollectSource(ls, f, k);
      assert TableRow(ls[j], findTranscript) == Some(kept[k]);
    }
  }

  /** The lines `parse_variant_table` reads under a header at `h`: at most nine. */
  function Window(lines: seq<string>, h: nat): (w: seq<string>)
    requires h < |lines|
    ensures |w| <= 9
    ensures w == lines[h + 1..Min(h + 10, |lines|)]
  {
    lines[h + 1..Min(h + 10, |lines|)]
  }

  /** The records the header scan yields; none without a header. */
  function TableRows(lines: seq<string>, findTranscript: string -> Option<string>): (vs: seq<Variant>)
    ensures |vs| <= 9
    ensures FirstHeader(lines).None? ==> vs == []
  {
    match FirstHeader(lines)
    case None => []
    case Some(h) => Kept(Window(lines, h), findTranscript)
  }

  /** The scan keeps every kept row named. */
  lemma TableRowsNamed(lines: seq<string>, findTranscript: string -> Option<string>)
    ensures AllNamed(TableRows(lines, findTranscript))
  {
    if FirstHeader(lines).Some? {
      KeptRowsNamed(Window(lines, FirstHeader(lines).value), findTranscript);
    }
  }

  lemma WindowOfAppend(lines: seq<string>, extra: seq<string>, h: nat)
    requires h + 10 <= |lines|
    ensures Window(lines + extra, h) == Window(lines, h)
  {
    assert Min(h + 10, |lines + extra|) == h + 10 == Min(h + 10, |lines|);
    SliceOfAppend(lines, extra, h + 1, h + 10);
  }

  /** Lines more than nine below the header are never read. */
  lemma OnlyWindowMatters(lines: seq<string>, extra: seq<string>, findTranscript: string -> Option<string>)
    requires FirstHeader(lines).Some? && FirstHeader(lines).value + 10 <= |lines|
    ensures TableRows(lines + extra, findTranscript) == TableRows(lines, findTranscript)
  {
    var h := FirstHeader(lines).value;
    FirstWhereAppend(lines, extra, HeaderLine);
    assert FirstHeader(lines + extra) == Some(h);
    WindowOfAppend(lines, extra, h);
  }

  // ---------------------------------------------------------------- gene mentions

  /** The gene alternation of `fallback_gene_extraction`, in the order of `common_genes`. */
  const CommonGenes: seq<string> := [
    "RB1", "RET", "NPM1", "BRCA1", "BRCA2", "MLH1", "MSH2", "MSH6", "PMS2", "EPCAM",
    "APC", "MUTYH", "TP53", "CHEK2", "PALB2", "ATM", "CDH1", "STK11", "PTEN", "CD27"]

  /** `\bg\b` matches at `p`, ignoring case. */
  predicate MentionAt(s: string, p: nat, g: string) {
    && p + |g| <= |s| && Lower(s[p..p + |g|]) == Lower(g)
    && (p == 0 || !IsWordChar(s[p - 1]))
    && (p + |g| == |s| || !IsWordChar(s[p + |g|]))
  }

  predicate Mentions(s: string, g: string) {
    exists p: nat :: p <= |s| && MentionAt(s, p, g)
  }

  /** At `p`, the first of `gs` mentioned there, as written in `s`. */
  function GeneAt(s: string, p: nat, gs: seq<string>): (r: Option<string>)
    ensures r.Some? ==> exists k :: 0 <= k < |gs| && MentionAt(s, p, gs[k]) && r.value == s[p..p + |gs[k]|]
    ensures r.None? <==> forall k :: 0 <= k < |gs| ==> !MentionAt(s, p, gs[k])
  {
    if gs == [] then None
    else if MentionAt(s, p, gs[0]) then Some(s[p..p + |gs[0]|])
    else
      var r := GeneAt(s, p, gs[1..]);
      assert forall k :: 1 <= k < |gs| ==> gs[k] == gs[1..][k - 1];
      r
  }

  /** `m` is one of the common genes, spelled in any case. */
  predicate SpellsCommonGene(m: string) {
    exists k :: 0 <= k < |CommonGenes| && Lower(m) == Lower(CommonGenes[k])
  }

  /** No common gene is mentioned at or after `p`. */
  ghost predicate NoMentionFrom(s: string, p: nat) {
    forall q: nat, k :: p <= q && 0 <= k < |CommonGenes| ==> !MentionAt(s, q, CommonGenes[k])
  }

  /** The leftmost mention at or after `p`: what `re.search` with the alternation captures. */
  function MentionFrom(s: string, p: nat): (r: Option<string>)
    ensures r.Some? ==> SpellsCommonGene(r.value)
    ensures r.None? <==> NoMentionFrom(s, p)
    decreases |s| - p
  {
    if p >= |s| then
      assert NoMentionFrom(s, p) by {
        forall q: nat, k | p <= q && 0 <= k < |CommonGenes| ensures !MentionAt(s, q, CommonGenes[k]) {
          assert |CommonGenes[k]| > 0;
        }
      }
      None
    else
      match GeneAt(s, p, CommonGenes)
      case Some(g) => Some(g)
      case None =>
        var r := MentionFrom(s, p + 1);
        assert NoMentionFrom(s, p + 1) ==> NoMentionFrom(s, p) by {
          if NoMentionFrom(s, p + 1) {
            forall q: nat, k | p <= q && 0 <= k < |CommonGenes| ensures !MentionAt(s, q, CommonGenes[k]) {
              if q == p { assert !MentionAt(s, p, CommonGenes[k]); }
            }
          }
        }
        r
  }

  /** The fallback's gene search over one line. */
  function FirstMention(line: string): (r: Option<string>)
    ensures r.Some? ==> SpellsCommonGene(r.value)
    ensures r.None? <==> forall k :: 0 <= k < |CommonGenes| ==> !Mentions(line, CommonGenes[k])
  {
    var r := MentionFrom(line, 0);
    if r.None? then
      assert forall k :: 0 <= k < |CommonGenes| ==> !Mentions(line, CommonGenes[k]) by {
        forall k | 0 <= k < |CommonGenes| ensures !Mentions(line, CommonGenes[k]) {
          forall q: nat | q <= |line| ensures !MentionAt(line, q, CommonGenes[k]) { }
        }
      }
      r
    else
      assert !NoMentionFrom(line, 0);
      r
  }

  /** Past the end of the text there is no mention. */
  lemma MentionFromEnd(s: string, p: nat)
    requires p >= |s|
    ensures MentionFrom(s, p).None?
  {
  }

  /** A mention at `p` is the one found from `p`. */
  lemma MentionFromHere(s: string, p: nat)
    requires p < |s| && GeneAt(s, p, CommonGenes).Some?
    ensures MentionFrom(s, p) == GeneAt(s, p, CommonGenes)
  {
  }

  /** Without a mention at `p` the search moves on to `p + 1`. */
  lemma MentionFromNext(s: string, p: nat)
    requires p < |s| && GeneAt(s, p, CommonGenes).None?
    ensures MentionFrom(s, p) == MentionFrom(s, p + 1)
  {
  }

  /** None of `gs` is mentioned at any position from `p` up to `q`. */
  predicate NoneBetween(s: string, p: nat, q: nat, gs: seq<string>) {
    forall i :: p <= i < q ==> GeneAt(s, i, gs).None?
  }

  lemma NoneBetweenStep(s: string, p: nat, q: nat, gs: seq<string>)
    requires GeneAt(s, p, gs).None? && NoneBetween(s, p + 1, q, gs)
    ensures NoneBetween(s, p, q, gs)
  {
  }

  /**
   * The mention found from `p` is the leftmost one: it is the gene mentioned at
   * some `q` at or after `p`, spelled as the text spells it there, and no
   * common gene is mentioned between `p` and `q`.
   */
  lemma {:induction false} MentionFromLeftmost(s: string, p: nat) returns (q: nat)
    requires MentionFrom(s, p).Some?
    ensures p <= q < |s|
    ensures GeneAt(s, q, CommonGenes) == MentionFrom(s, p)
    ensures NoneBetween(s, p, q, CommonGenes)
    decreases |s| - p
  {
    if p >= |s| {
      MentionFromEnd(s, p);
      assert false;
    } else if GeneAt(s, p, CommonGenes).Some? {
      MentionFromHere(s, p);
      q := p;
    } else {
      MentionFromNext(s, p);
      q := MentionFromLeftmost(s, p + 1);
      NoneBetweenStep(s, p, q, CommonGenes);
    }
  }

  /**
   * The gene the fallback takes from a line (`re.search`) is the line's
   * leftmost mention; GeneAt gives it as the line spells it at `q`.
   */
  lemma FirstMentionLeftmost(line: string) returns (q: nat)
    requires FirstMention(line).Some?
    ensures q < |line|
    ensures GeneAt(line, q, CommonGenes) == FirstMention(line)
    ensures NoneBetween(line, 0, q, CommonGenes)
  {
    q := MentionFromLeftmost(line, 0);
  }

  // ---------------------------------------------------------------- find_mentioned_genes

  /** `gs` with the genes `text` does not mention filtered out, order kept. */
  function MentionedAmong(gs: seq<string>, text: string): (r: seq<string>)
    ensures |r| <= |gs|
    ensures forall g :: g in r <==> g in gs && Mentions(text, g)
  {
    if gs == [] then []
    else
      var rest := MentionedAmong(gs[1..], text);
      assert forall g :: g in gs <==> g == gs[0] || g in gs[1..];
      if Mentions(text, gs[0]) then [gs[0]] + rest else rest
  }

  /** `find_mentioned_genes(text)`. */
  function FindMentionedGenes(text: string): (r: seq<string>)
    ensures forall g :: g in r <==> g in CommonGenes && Mentions(text, g)
  {
    MentionedAmong(CommonGenes, text)
  }

  predicate Distinct<T(==)>(s: seq<T>) {
    forall i, j :: 0 <= i < j < |s| ==> s[i] != s[j]
  }

  /** `a` is `b` with some elements left out, order kept. */
  predicate Subsequence<T(==)>(a: seq<T>, b: seq<T>)
    decreases |b|
  {
    if a == [] then true
    else if b == [] then false
    else if a[0] == b[0] then Subsequence(a[1..], b[1..])
    else Subsequence(a, b[1..])
  }

  /** The filter keeps the list's order and, from a list without repeats, repeats nothing. */
  lemma {:induction false} MentionedAmongOrdered(gs: seq<string>, text: string)
    ensures Subsequence(MentionedAmong(gs, text), gs)
    ensures Distinct(gs) ==> Distinct(MentionedAmong(gs, text))
  {
    if gs != [] {
      MentionedAmongOrdered(gs[1..], text);
      var rest := MentionedAmong(gs[1..], text);
      if Mentions(text, gs[0]) {
        var r := [gs[0]] + rest;
        assert r[1..] == rest;
        if Distinct(gs) {
          assert gs[0] !in gs[1..];
          assert gs[0] !in rest;
          forall i, j | 0 <= i < j < |r| ensures r[i] != r[j] {
            if i == 0 { assert r[j] == rest[j - 1]; }
            else { assert r[i] == rest[i - 1] && r[j] == rest[j - 1]; }
          }
        }
      } else if rest != [] {
        assert rest[0] in rest;
      }
    }
  }

  /** The mentioned genes come in `common_genes` order, each once. */
  lemma FindMentionedGenesOrdered(text: string)
    ensures Subsequence(FindMentionedGenes(text), CommonGenes)
    ensures Distinct(FindMentionedGenes(text))
  {
    CommonGenesDistinct();
    MentionedAmongOrdered(CommonGenes, text);
  }

  lemma CommonGenesDistinct()
    ensures Distinct(CommonGenes)
  {
    forall i, j | 0 <= i < j < |CommonGenes| ensures CommonGenes[i] != CommonGenes[j] { }
  }

  /** A line has a first mention exactly when it mentions one of the common genes. */
  lemma FirstMentionIffMentioned(line: string)
    ensures FirstMention(line).None? <==> FindMentionedGenes(line) == []
  {
    if FindMentionedGenes(line) != [] {
      assert FindMentionedGenes(line)[0] in FindMentionedGenes(line);
    }
  }

  // ---------------------------------------------------------------- extract_variant_details_from_context

  /** The capture of `search` over `ctx`, or `previous` when it finds nothing. */
  function CaptureOr(search: string -> Option<string>, ctx: string, previous: string): (r: string)
    ensures search(ctx).Some? ==> r == search(ctx).value
    ensures search(ctx).None? ==> r == previous
  {
    match search(ctx)
    case Some(c) => c
    case None => previous
  }

  /** "exon" and the digits after it, or `previous`. */
  function ExonOr(sc: Searches, ctx: string, previous: string): (r: string)
    ensures sc.exon(ctx).Some? ==> r == "exon" + sc.exon(ctx).value
    ensures sc.exon(ctx).None? ==> r == previous
  {
    match sc.exon(ctx)
    case Some(d) => "exon" + d
    case None => previous
  }

  /** The type cue of a context: deletion with frameshift, then substitution with missense. */
  function ContextType(ctx: string, previous: string): (t: string)
    ensures ContainsCI(ctx, "deletion") && ContainsCI(ctx, "frameshift") ==> t == "Deletion-Frameshift"
    ensures (!(ContainsCI(ctx, "deletion") && ContainsCI(ctx, "frameshift"))
      && ContainsCI(ctx, "substitution") && ContainsCI(ctx, "missense")) ==> t == "Substitution-Missense"
    ensures t != "Deletion-Frameshift" && t != "Substitution-Missense" ==> t == previous
    ensures (!(ContainsCI(ctx, "deletion") && ContainsCI(ctx, "frameshift"))
             && !(ContainsCI(ctx, "substitution") && ContainsCI(ctx, "missense"))) ==> t == previous
  {
    if ContainsCI(ctx, "deletion") && ContainsCI(ctx, "frameshift") then "Deletion-Frameshift"
    else if ContainsCI(ctx, "substitution") && ContainsCI(ctx, "missense") then "Substitution-Missense"
    else previous
  }

  /** The significance cue of a context: Pathogenic before VUS; no Benign cue here. */
  function ContextSignificance(ctx: string, previous: string): (l: string)
    ensures ContainsCI(ctx, "pathogenic") ==> l == "Pathogenic"
    ensures !ContainsCI(ctx, "pathogenic") && (ContainsCI(ctx, "vus") || ContainsCI(ctx, "unknown significance")) ==> l == VusLabel
    ensures l != "Pathogenic" && l != VusLabel ==> l == previous
    ensures !ContainsCI(ctx, "pathogenic") && !ContainsCI(ctx, "vus") && !ContainsCI(ctx, "unknown significance")
      ==> l == previous
  {
    if ContainsCI(ctx, "pathogenic") then "Pathogenic"
    else if ContainsCI(ctx, "vus") || ContainsCI(ctx, "unknown significance") then VusLabel
    else previous
  }

  /** The first 2-3 digit number of the context when it exceeds 10, or `previous`. */
  function ContextCopyNumber(ctx: string, previous: string): (c: string)
    ensures c != previous ==> TwoOrThreeDigits(ctx) == Some(c) && DigitsValue(c) > 10
    ensures TwoOrThreeDigits(ctx).Some? && DigitsValue(TwoOrThreeDigits(ctx).value) > 10
      ==> c == TwoOrThreeDigits(ctx).value
    ensures (TwoOrThreeDigits(ctx).None? || DigitsValue(TwoOrThreeDigits(ctx).value) <= 10) ==> c == previous
  {
    match TwoOrThreeDigits(ctx)
    case None => previous
    case Some(d) => if DigitsValue(d) > 10 then d else previous
  }

  /**
   * The record after `extract_variant_details_from_context(variant, ctx)`: the keys
   * the context speaks to are overwritten, the others keep their values.
   */
  function ContextDetails(v: Variant, ctx: string, sc: Searches): (r: Variant)
    ensures r.gene == v.gene && r.nucleicAcid == v.nucleicAcid
    ensures Untouched(v) ==> Untouched(r)
  {
    v.(transcript := CaptureOr(sc.transcript, ctx, v.transcript),
       cdnaChange := CaptureOr(sc.cdna, ctx, v.cdnaChange),
       aaChange := CaptureOr(sc.aaUpper, ctx, v.aaChange),
       location := ExonOr(sc, ctx, v.location),
       variantType := ContextType(ctx, v.variantType),
       significance := ContextSignificance(ctx, v.significance),
       alleleFraction := CaptureOr(sc.shortPercent, ctx, v.alleleFraction),
       copyNumber := ContextCopyNumber(ctx, v.copyNumber))
  }

  /** `extract_variant_details_from_context`, key by key. */
  method ExtractVariantDetailsFromContext(v0: Variant, ctx: string, sc: Searches) returns (v: Variant)
    ensures v == ContextDetails(v0, ctx, sc)
  {
    v := FillContextCaptures(v0, ctx, sc);
    v := FillContextCues(v, ctx);
    v := FillContextNumbers(v, ctx, sc);
  }

  /** The transcript, cDNA, amino-acid and exon searches over the context. */
  method FillContextCaptures(v0: Variant, ctx: string, sc: Searches) returns (v: Variant)
    ensures v == v0.(transcript := CaptureOr(sc.transcript, ctx, v0.transcript),
                     cdnaChange := CaptureOr(sc.cdna, ctx, v0.cdnaChange),
                     aaChange := CaptureOr(sc.aaUpper, ctx, v0.aaChange),
                     location := ExonOr(sc, ctx, v0.location))
  {
    v := v0;
    var transcript := sc.transcript(ctx);
    if transcript.Some? {
      v := v.(transcript := transcript.value);
    }
    var cdna := sc.cdna(ctx);
    if cdna.Some? {
      v := v.(cdnaChange := cdna.value);
    }
    var aa := sc.aaUpper(ctx);
    if aa.Some? {
      v := v.(aaChange := aa.value);
    }
    var exon := sc.exon(ctx);
    if exon.Some? {
      v := v.(location := "exon" + exon.value);
    }
  }

  /** The type and significance keyword cues. */
  method FillContextCues(v0: Variant, ctx: string) returns (v: Variant)
    ensures v == v0.(variantType := ContextType(ctx, v0.variantType),
                     significance := ContextSignificance(ctx, v0.significance))
  {
    v := v0;
    if ContainsCI(ctx, "deletion") && ContainsCI(ctx, "frameshift") {
      v := v.(variantType := "Deletion-Frameshift");
    } else if ContainsCI(ctx, "substitution") && ContainsCI(ctx, "missense") {
      v := v.(variantType := "Substitution-Missense");
    }
    if ContainsCI(ctx, "pathogenic") {
      v := v.(significance := "Pathogenic");
    } else if ContainsCI(ctx, "vus") || ContainsCI(ctx, "unknown significance") {
      v := v.(significance := VusLabel);
    }
  }

  /** The allele-fraction search and the copy-number digits. */
  method FillContextNumbers(v0: Variant, ctx: string, sc: Searches) returns (v: Variant)
    ensures v == v0.(alleleFraction := CaptureOr(sc.shortPercent, ctx, v0.alleleFraction),
                     copyNumber := ContextCopyNumber(ctx, v0.copyNumber))
  {
    v := v0;
    var af := sc.shortPercent(ctx);
    if af.Some? {
      v := v.(alleleFraction := af.value);
    }
    var cn := TwoOrThreeDigits(ctx);
    if cn.Some? && DigitsValue(cn.value) > 10 {
      v := v.(copyNumber := cn.value);
    }
  }

  // ---------------------------------------------------------------- fallback_gene_extraction

  /** `' '.join(lines[max(0, i-1):i+3])`. */
  function Context(lines: seq<string>, i: nat): string
    requires i < |lines|
  {
    JoinWith(lines[if i >= 1 then i - 1 else 0..Min(i + 3, |lines|)], " ")
  }

  /** The records for the first `n` lines: one per line that mentions a gene. */
  function FallbackUpTo(lines: seq<string>, n: nat, sc: Searches): (vs: seq<Variant>)
    requires n <= |lines|
    ensures |vs| <= n
  {
    if n == 0 then []
    else
      var prev := FallbackUpTo(lines, n - 1, sc);
      match FirstMention(lines[n - 1])
      case None => prev
      case Some(g) => prev + [ContextDetails(BlankVariant(g), Context(lines, n - 1), sc)]
  }

  /** `fallback_gene_extraction(text)`: at most one record per line, each for a mentioned common gene. */
  function Fallback(text: string, sc: Searches): (vs: seq<Variant>)
    ensures |vs| <= |SplitOn(text, '\n')|
    ensures MentionRecords(vs)
  {
    var lines := SplitOn(text, '\n');
    FallbackRecords(lines, |lines|, sc);
    FallbackUpTo(lines, |lines|, sc)
  }

  /** No spelling of a common gene is "N/A": the second character of every one is a letter or digit. */
  lemma CommonGeneNotNA(m: string)
    requires SpellsCommonGene(m)
    ensures m != NA
  {
    var k :| 0 <= k < |CommonGenes| && Lower(m) == Lower(CommonGenes[k]);
    assert CommonGenes[k][1] != '/';
    assert Lower(CommonGenes[k])[1] != '/';
    assert Lower(NA)[1] == '/';
  }

  /** Every fallback record is a DNA record for a common gene as the text spells it. */
  predicate MentionRecords(vs: seq<Variant>) {
    forall k :: 0 <= k < |vs| ==> vs[k].nucleicAcid == "DNA" && Untouched(vs[k]) && SpellsCommonGene(vs[k].gene)
  }

  lemma MentionRecordsSnoc(prev: seq<Variant>, v: Variant)
    requires MentionRecords(prev)
    requires v.nucleicAcid == "DNA" && Untouched(v) && SpellsCommonGene(v.gene)
    ensures MentionRecords(prev + [v])
  {
    var vs := prev + [v];
    forall k | 0 <= k < |vs|
      ensures vs[k].nucleicAcid == "DNA" && Untouched(vs[k]) && SpellsCommonGene(vs[k].gene)
    {
      if k < |prev| { assert vs[k] == prev[k]; }
    }
  }

  lemma {:induction false} FallbackRecords(lines: seq<string>, n: nat, sc: Searches)
    requires n <= |lines|
    ensures MentionRecords(FallbackUpTo(lines, n, sc))
  {
    if n > 0 {
      FallbackRecords(lines, n - 1, sc);
      match FirstMention(lines[n - 1])
      case None =>
      case Some(g) =>
        MentionRecordsSnoc(FallbackUpTo(lines, n - 1, sc), ContextDetails(BlankVariant(g), Context(lines, n - 1), sc));
    }
  }

  /** A line that mentions no common gene adds nothing; one that does adds exactly one record. */
  lemma FallbackOnePerMention(lines: seq<string>, n: nat, sc: Searches)
    requires n < |lines|
    ensures FindMentionedGenes(lines[n]) == [] ==> FallbackUpTo(lines, n + 1, sc) == FallbackUpTo(lines, n, sc)
    ensures FindMentionedGenes(lines[n]) != [] ==> |FallbackUpTo(lines, n + 1, sc)| == |FallbackUpTo(lines, n, sc)| + 1
    ensures FirstMention(lines[n]).Some? ==>
      FallbackUpTo(lines, n + 1, sc)[|FallbackUpTo(lines, n, sc)|].gene == FirstMention(lines[n]).value
  {
    FirstMentionIffMentioned(lines[n]);
  }

  /** `fallback_gene_extraction(text)`. */
  method FallbackGeneExtraction(text: string, sc: Searches) returns (variants: seq<Variant>)
    ensures variants == Fallback(text, sc)
  {
    var lines := SplitOn(text, '\n');
    variants := [];
    for i := 0 to |lines|
      invariant variants == FallbackUpTo(lines, i, sc)
    {
      var found := FirstMention(lines[i]);
      if found.Some? {
        var context := Context(lines, i);
        var v := BlankVariant(found.value);
        v := ExtractVariantDetailsFromContext(v, context, sc);
        variants := variants + [v];
      }
    }
  }

  /** Every fallback record names its gene. */
  lemma FallbackNamed(text: string, sc: Searches)
    ensures forall k :: 0 <= k < |Fallback(text, sc)| ==> Fallback(text, sc)[k].gene != NA
  {
    var vs := Fallback(text, sc);
    forall k | 0 <= k < |vs| ensures vs[k].gene != NA {
      CommonGeneNotNA(vs[k].gene);
    }
  }

  // ---------------------------------------------------------------- parse_variant_table

  /** What `parse_variant_table(text)` returns. */
  function VariantTableOf(text: string, sc: Searches): (vs: seq<Variant>)
    ensures forall k :: 0 <= k < |vs| ==> vs[k].gene != NA
  {
    var section := SectionOrText(text, sc);
    var rows := TableRows(SplitOn(section, '\n'), sc.transcript);
    TableRowsNamed(SplitOn(section, '\n'), sc.transcript);
    FallbackNamed(section, sc);
    if rows != [] then rows else Fallback(section, sc)
  }

  /** Table rows win; the fallback runs only when the header scan kept nothing. */
  lemma TableBeforeFallback(text: string, sc: Searches)
    ensures var section := SectionOrText(text, sc);
      var rows := TableRows(SplitOn(section, '\n'), sc.transcript);
      && (rows != [] ==> VariantTableOf(text, sc) == rows && |rows| <= 9 && AllNamed(rows))
      && (rows == [] ==> VariantTableOf(text, sc) == Fallback(section, sc))
  {
    TableRowsNamed(SplitOn(SectionOrText(text, sc), '\n'), sc.transcript);
  }

  /** `parse_variant_table(text)`. */
  method ParseVariantTable(text: string, sc: Searches) returns (variants: seq<Variant>)
    ensures variants == VariantTableOf(text, sc)
  {
    var section := MarkerSection(text, sc);
    if section == [] {
      section := text;
    }
    var lines := SplitOn(section, '\n');
    var header := FindHeader(lines, HeaderLine);
    variants := [];
    if header.Some? {
      variants := ReadRows(lines, header.value, sc.transcript);
    }
    if variants == [] {
      variants := FallbackGeneExtraction(section, sc);
    }
  }

  /** The header scan: the first line matching `isHeader`. */
  method FindHeader(lines: seq<string>, isHeader: string -> bool) returns (header: Option<nat>)
    ensures header == FirstWhere(lines, isHeader)
  {
    var i := 0;
    while i < |lines|
      invariant 0 <= i <= |lines|
      invariant forall j :: 0 <= j < i ==> !isHeader(lines[j])
    {
      if isHeader(lines[i]) {
        return Some(i);
      }
      i := i + 1;
    }
    return None;
  }

  /** The data-row loop over lines `h + 1` up to `h + 9`. */
  method ReadRows(lines: seq<string>, h: nat, findTranscript: string -> Option<string>) returns (variants: seq<Variant>)
    requires h < |lines|
    ensures variants == Kept(Window(lines, h), findTranscript)
  {
    ghost var f := RowReader(findTranscript);
    var window := lines[h + 1..Min(h + 10, |lines|)];
    variants := [];
    for i := 0 to |window|
      invariant variants == Collect(window[..i], f)
    {
      var row := ReadRow(window[i], findTranscript);
      TakeSnoc(window, i);
      CollectSnoc(window[..i], window[i], f);
      if row.Some? {
        variants := variants + [row.value];
      }
    }
    TakeAll(window);
  }

  /** One pass of the data-row loop. */
  method ReadRow(raw: string, findTranscript: string -> Option<string>) returns (row: Option<Variant>)
    ensures row == TableRow(raw, findTranscript)
  {
    var line := Strip(raw);
    if |line| < 10 {
      return None;
    }
    var parts := SplitColumns(line);
    if |parts| < 3 {
      return None;
    }
    var v := ParseMutationRow(parts, line, findTranscript);
    if v.gene != NA {
      return Some(v);
    }
    return None;
  }
}
