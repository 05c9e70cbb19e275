/**
 * The field resolver of pdf_extractor.py: `extract_pattern`,
 * `extract_multiple_patterns` and `extract_field_value`.
 *
 * A regular expression is not interpreted here. A rule stands for what
 * `re.search` yields for it on a text: for a pattern with a capture group,
 * no match or the text of group 1; for a pattern without one, only whether
 * it matched, because `match.group(1)` then raises and the caller's handler
 * turns that into the default.
 */
module FieldResolver {
  import opened Text

  datatype Rule =
    | Capturing(search: string -> Option<string>)
    | Plain(found: string -> bool)

  // ---------------------------------------------------------------- cleanup

  /** `re.sub(r'\s+', ' ', s)`: every maximal run of whitespace becomes one space. */
  function Collapse(s: string): (r: string)
    ensures |r| <= |s|
    decreases |s|
  {
    if s == [] then []
    else if IsSpace(s[0]) then [' '] + Collapse(DropSpaces(s[1..]))
    else [s[0]] + Collapse(s[1..])
  }

  /** Collapsing keeps the text empty or not, and keeps whether it starts and ends with whitespace. */
  lemma {:induction false} CollapseEnds(s: string)
    ensures Collapse(s) == [] <==> s == []
    ensures s != [] ==> (IsSpace(Collapse(s)[0]) <==> IsSpace(s[0]))
    ensures s != [] ==> (IsSpace(Collapse(s)[|Collapse(s)| - 1]) <==> IsSpace(s[|s| - 1]))
    decreases |s|
  {
    if s != [] {
      var rest := if IsSpace(s[0]) then DropSpaces(s[1..]) else s[1..];
      assert rest == s[|s| - |rest|..];
      CollapseEnds(rest);
      var r := Collapse(s);
      assert r == [r[0]] + Collapse(rest);
      if rest == [] {
        assert IsSpace(s[0]) ==> IsSpace(s[|s| - 1]);
      } else {
        assert rest[|rest| - 1] == s[|s| - 1];
        assert r[|r| - 1] == Collapse(rest)[|Collapse(rest)| - 1];
      }
    }
  }

  /** Whitespace occurs in `r` only as single plain spaces. */
  predicate SingleSpaced(r: string) {
    && (forall i :: 0 <= i < |r| && IsSpace(r[i]) ==> r[i] == ' ')
    && (forall i :: 0 <= i < |r| - 1 ==> !(IsSpace(r[i]) && IsSpace(r[i + 1])))
  }

  lemma SingleSpacedCons(x: char, c: string)
    requires SingleSpaced(c)
    requires IsSpace(x) ==> x == ' ' && (c == [] || !IsSpace(c[0]))
    ensures SingleSpaced([x] + c)
  {
    var r := [x] + c;
    forall i | 1 <= i < |r| ensures r[i] == c[i - 1] { }
  }

  /** After collapsing, whitespace occurs only as single plain spaces. */
  lemma {:induction false} CollapseSingleSpaces(s: string)
    ensures SingleSpaced(Collapse(s))
    decreases |s|
  {
    if s != [] {
      var rest := if IsSpace(s[0]) then DropSpaces(s[1..]) else s[1..];
      CollapseSingleSpaces(rest);
      CollapseEnds(rest);
      SingleSpacedCons(if IsSpace(s[0]) then ' ' else s[0], Collapse(rest));
    }
  }

  function BreakToSpace(c: char): char {
    if c == '\n' || c == '\r' then ' ' else c
  }

  /** `.replace('\n', ' ').replace('\r', ' ')`. */
  function ReplaceBreaks(s: string): (r: string)
    ensures |r| == |s|
  {
    seq(|s|, i requires 0 <= i < |s| => BreakToSpace(s[i]))
  }

  /**
   * A cleaned capture: no line break, whitespace only as single plain spaces,
   * none at either end.
   */
  predicate Normalised(r: string) {
    && (forall i :: 0 <= i < |r| ==> r[i] != '\n' && r[i] != '\r')
    && SingleSpaced(r)
    && (r == [] || (!IsSpace(r[0]) && !IsSpace(r[|r| - 1])))
  }

  /** A single-spaced text holds no line break, so replacing breaks leaves it alone. */
  lemma BreaksAlreadyGone(c: string)
    requires SingleSpaced(c)
    ensures ReplaceBreaks(c) == c
    ensures forall i :: 0 <= i < |c| ==> c[i] != '\n' && c[i] != '\r'
  {
    forall i | 0 <= i < |c| ensures c[i] != '\n' && c[i] != '\r' && ReplaceBreaks(c)[i] == c[i] {
      if IsSpace(c[i]) { assert c[i] == ' '; }
    }
  }

  /** Collapsing a text with no whitespace at either end normalises it. */
  lemma CollapseNormalises(t: string)
    requires t == [] || (!IsSpace(t[0]) && !IsSpace(t[|t| - 1]))
    ensures Normalised(Collapse(t))
    ensures Collapse(t) == [] <==> t == []
  {
    CollapseEnds(t);
    CollapseSingleSpaces(t);
    BreaksAlreadyGone(Collapse(t));
  }

  /** The cleanup `extract_pattern` applies to a capture: strip, collapse runs, replace breaks. */
  function Clean(s: string): (r: string)
    ensures Normalised(r)
    ensures r == [] <==> Blank(s)
  {
    var c := Collapse(Strip(s));
    StripEmptyIffBlank(s);
    CollapseNormalises(Strip(s));
    BreaksAlreadyGone(c);
    ReplaceBreaks(c)
  }

  // ---------------------------------------------------------------- extract_pattern

  /**
   * `extract_pattern(text, pattern, None)`: the cleaned capture, or None when
   * the rule does not match, captures only whitespace, or has no group.
   */
  function Resolve(text: string, rule: Rule): (r: Option<string>)
    ensures r.Some? ==> r.value != [] && Normalised(r.value)
    ensures r.Some? <==> rule.Capturing? && rule.search(text).Some? && !Blank(rule.search(text).value)
    ensures r.Some? ==> r.value == Clean(rule.search(text).value)
  {
    match rule
    case Plain(_) => None
    case Capturing(search) =>
      match search(text)
      case None => None
      case Some(g) =>
        var c := Clean(g);
        if c == [] then None else Some(c)
  }

  /** `extract_pattern(text, pattern, default)`. */
  function ExtractPattern(text: string, rule: Rule, default: string): (r: string)
    ensures rule.Plain? ==> r == default
    ensures r == default || (r != [] && Normalised(r))
    ensures r != default ==> Resolve(text, rule) == Some(r)
    ensures Resolve(text, rule).Some? ==> r == Resolve(text, rule).value
    ensures Resolve(text, rule).None? ==> r == default
  {
    match Resolve(text, rule)
    case None => default
    case Some(c) => c
  }

  // ---------------------------------------------------------------- extract_multiple_patterns

  /** A rule whose cleaned capture `extract_multiple_patterns` accepts. */
  predicate Hit(text: string, rule: Rule) {
    Resolve(text, rule).Some? && Resolve(text, rule).value != "N/A"
  }

  /**
   * `extract_multiple_patterns(text, patterns, default)`: the cleaned capture of
   * the first rule, in list order, that yields one other than "N/A"; otherwise
   * the default (MultipleIsFirstHit).
   */
  function ExtractMultiplePatterns(text: string, rules: seq<Rule>, default: string): (r: string)
    ensures r == default || (r != [] && r != "N/A" && Normalised(r))
    decreases |rules|
  {
    if rules == [] then default
    else if Hit(text, rules[0]) then Resolve(text, rules[0]).value
    else ExtractMultiplePatterns(text, rules[1..], default)
  }

  /** For each rule, whether `extract_multiple_patterns` accepts its capture. */
  function Hits(text: string, rules: seq<Rule>): (hs: seq<bool>)
    ensures |hs| == |rules|
    ensures forall j :: 0 <= j < |rules| ==> hs[j] == Hit(text, rules[j])
  {
    seq(|rules|, j requires 0 <= j < |rules| => Hit(text, rules[j]))
  }

  /** `extract_multiple_patterns` returns the capture of the first accepted rule, else the default. */
  lemma {:induction false} MultipleIsFirstHit(text: string, rules: seq<Rule>, default: string)
    ensures var k := FirstTrue(Hits(text, rules));
      ExtractMultiplePatterns(text, rules, default)
        == if k < |rules| then Resolve(text, rules[k]).value else default
    decreases |rules|
  {
    if rules != [] && !Hit(text, rules[0]) {
      var flags, rest := Hits(text, rules), Hits(text, rules[1..]);
      assert flags[1..] == rest;
      assert FirstTrue(flags) == 1 + FirstTrue(rest);
      assert ExtractMultiplePatterns(text, rules, default) == ExtractMultiplePatterns(text, rules[1..], default);
      MultipleIsFirstHit(text, rules[1..], default);
      var k := FirstTrue(rest);
      if k < |rules| - 1 {
        assert rules[1 + k] == rules[1..][k];
      }
    }
  }

  function WithoutPlain(rules: seq<Rule>): (rs: seq<Rule>)
    ensures forall i :: 0 <= i < |rs| ==> rs[i].Capturing?
  {
    if rules == [] then []
    else if rules[0].Plain? then WithoutPlain(rules[1..])
    else [rules[0]] + WithoutPlain(rules[1..])
  }

  /**
   * A rule without a capture group never contributes: it raises inside
   * `match.group(1)`, the handler returns the default, and the next rule is tried.
   */
  lemma {:induction false} PlainRulesIgnored(text: string, rules: seq<Rule>, default: string)
    ensures ExtractMultiplePatterns(text, rules, default)
         == ExtractMultiplePatterns(text, WithoutPlain(rules), default)
    decreases |rules|
  {
    if rules != [] {
      PlainRulesIgnored(text, rules[1..], default);
      if rules[0].Capturing? {
        var w := WithoutPlain(rules);
        assert w == [rules[0]] + WithoutPlain(rules[1..]);
        assert w[1..] == WithoutPlain(rules[1..]);
      }
    }
  }

  // ---------------------------------------------------------------- extract_field_value

  /**
   * For a field name, the two searches `extract_field_value` builds from it:
   * `{name}[:\s]*([^\n\r]+)` and the same with each space of the name relaxed
   * to `\s*`. Their group always takes part in a match, so each is a capture or no match.
   */
  datatype NamePatterns = NamePatterns(
    exact: string -> string -> Option<string>,
    relaxed: string -> string -> Option<string>)

  /** The searches in the order `extract_field_value` tries them. */
  function NameSearches(names: seq<string>, np: NamePatterns): (ms: seq<string -> Option<string>>)
    ensures |ms| == 2 * |names|
    ensures forall k :: 0 <= k < |names| ==> ms[2 * k] == np.exact(names[k]) && ms[2 * k + 1] == np.relaxed(names[k])
  {
    if names == [] then []
    else [np.exact(names[0]), np.relaxed(names[0])] + NameSearches(names[1..], np)
  }

  /** A search whose stripped capture `extract_field_value` accepts. */
  predicate Accepts(text: string, m: string -> Option<string>) {
    m(text).Some? && Strip(m(text).value) != [] && Strip(m(text).value) != "N/A"
  }

  /** The loop of `extract_field_value` over its searches: only `strip()`, no collapsing. */
  function FirstStripped(text: string, ms: seq<string -> Option<string>>, default: string): (r: string)
    ensures r == default || (r != [] && r != "N/A" && !IsSpace(r[0]) && !IsSpace(r[|r| - 1]))
    decreases |ms|
  {
    if ms == [] then default
    else if Accepts(text, ms[0]) then Strip(ms[0](text).value)
    else FirstStripped(text, ms[1..], default)
  }

  /** For each search, whether `extract_field_value` accepts its stripped capture. */
  function Acceptances(text: string, ms: seq<string -> Option<string>>): (as_: seq<bool>)
    ensures |as_| == |ms|
    ensures forall j :: 0 <= j < |ms| ==> as_[j] == Accepts(text, ms[j])
  {
    seq(|ms|, j requires 0 <= j < |ms| => Accepts(text, ms[j]))
  }

  lemma {:induction false} StrippedIsFirstAccepted(text: string, ms: seq<string -> Option<string>>, default: string)
    ensures var k := FirstTrue(Acceptances(text, ms));
      FirstStripped(text, ms, default) == if k < |ms| then Strip(ms[k](text).value) else default
    decreases |ms|
  {
    if ms != [] && !Accepts(text, ms[0]) {
      var flags, rest := Acceptances(text, ms), Acceptances(text, ms[1..]);
      assert flags[1..] == rest;
      assert FirstTrue(flags) == 1 + FirstTrue(rest);
      assert FirstStripped(text, ms, default) == FirstStripped(text, ms[1..], default);
      StrippedIsFirstAccepted(text, ms[1..], default);
      var k := FirstTrue(rest);
      if k < |ms| - 1 {
        assert ms[1 + k] == ms[1..][k];
      }
    }
  }

  /** `extract_field_value(text, field_names, default)`. */
  function ExtractFieldValue(text: string, names: seq<string>, np: NamePatterns, default: string): (r: string)
    ensures r == default || (r != [] && r != "N/A" && r == Strip(r))
  {
    var r := FirstStripped(text, NameSearches(names, np), default);
    assert r != default ==> Strip(r) == r by {
      if r != default { StripFixed(r); }
    }
    r
  }
}
