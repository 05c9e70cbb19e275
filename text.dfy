/**
 * Character classes and the handful of Python string operations the extractor
 * relies on: `str.strip()`, `str.split()`, `str.split('\n')`, `' '.join(...)`,
 * slicing with clipped bounds, `str.lower()` and substring tests.
 */
module Text {

  datatype Option<+T> = None | Some(value: T)

  /** Python's `str.isspace()` (also what `\s`, `strip()` and `split()` treat as whitespace). */
  predicate IsSpace(c: char) {
    c == ' ' || ('\t' <= c <= '\r') || ('\U{1c}' <= c <= '\U{1f}') || c == '\U{85}' || c == '\U{a0}'
    || c == '\U{1680}' || ('\U{2000}' <= c <= '\U{200a}') || c == '\U{2028}' || c == '\U{2029}'
    || c == '\U{202f}' || c == '\U{205f}' || c == '\U{3000}'
  }

  predicate IsDigit(c: char) { '0' <= c <= '9' }
  predicate IsUpper(c: char) { 'A' <= c <= 'Z' }
  predicate IsLowerLetter(c: char) { 'a' <= c <= 'z' }
  predicate IsLetter(c: char) { IsUpper(c) || IsLowerLetter(c) }
  predicate IsAlnum(c: char) { IsLetter(c) || IsDigit(c) }

  /** A regex word character (`\w`), restricted to ASCII. */
  predicate IsWordChar(c: char) { IsAlnum(c) || c == '_' }

  function LowerChar(c: char): (r: char)
    ensures IsUpper(c) ==> IsLowerLetter(r)
    ensures !IsUpper(c) ==> r == c
  {
    if IsUpper(c) then (c as int + 32) as char else c
  }

  /** `s.lower()` for ASCII letters. */
  function Lower(s: string): (r: string)
    ensures |r| == |s|
    ensures forall i :: 0 <= i < |s| ==> r[i] == LowerChar(s[i])
  {
    seq(|s|, i requires 0 <= i < |s| => LowerChar(s[i]))
  }

  /** Python's `sub in s`. */
  predicate Contains(s: string, sub: string) {
    exists i :: 0 <= i <= |s| - |sub| && OccursAt(s, sub, i)
  }

  predicate OccursAt(s: string, sub: string, i: int)
    requires 0 <= i <= |s| - |sub|
  {
    s[i..i + |sub|] == sub
  }

  /** `cue in s.lower()` for a lower-case cue word. */
  predicate ContainsCI(s: string, cue: string) {
    Contains(Lower(s), cue)
  }

  predicate ContainsChar(s: string, c: char) {
    exists i :: 0 <= i < |s| && s[i] == c
  }

  /** Python's `s.isdigit()` over ASCII digits: non-empty and all digits. */
  predicate AllDigits(s: string) {
    |s| > 0 && forall i :: 0 <= i < |s| ==> IsDigit(s[i])
  }

  /** `int(s)` for a string of digits. */
  function DigitsValue(s: string): nat
    requires forall i :: 0 <= i < |s| ==> IsDigit(s[i])
  {
    if s == [] then 0 else DigitsValue(s[..|s| - 1]) * 10 + DigitOf(s[|s| - 1])
  }

  function DigitOf(c: char): (d: nat)
    requires IsDigit(c)
    ensures d < 10
  {
    c as int - '0' as int
  }

  /** Python's `s[a:b]` for non-negative `a` and `b`: out-of-range bounds are clipped. */
  function Slice<T>(s: seq<T>, a: nat, b: nat): (r: seq<T>)
    ensures |r| <= |s| && |r| <= b
    ensures b <= |s| && a <= b ==> r == s[a..b]
  {
    var hi := if b < |s| then b else |s|;
    var lo := if a < hi then a else hi;
    s[lo..hi]
  }

  /** The longest prefix of `s` made of digits. */
  function DigitPrefix(s: string): (d: string)
    ensures |d| <= |s| && d == s[..|d|]
    ensures forall i :: 0 <= i < |d| ==> IsDigit(d[i])
    ensures |d| < |s| ==> !IsDigit(s[|d|])
  {
    if s == [] || !IsDigit(s[0]) then [] else [s[0]] + DigitPrefix(s[1..])
  }

  predicate HasDigit(s: string) {
    exists i :: 0 <= i < |s| && IsDigit(s[i])
  }

  /** `s` from its first digit on; empty when it has none. */
  function SkipNonDigits(s: string): (r: string)
    ensures |r| <= |s| && r == s[|s| - |r|..]
    ensures forall i :: 0 <= i < |s| - |r| ==> !IsDigit(s[i])
    ensures r == [] || IsDigit(r[0])
    ensures HasDigit(s) <==> r != []
  {
    if s == [] || IsDigit(s[0]) then s else SkipNonDigits(s[1..])
  }

  /** A string of digits is its own first digit run. */
  lemma AllDigitsRun(s: string)
    requires s != [] && forall i :: 0 <= i < |s| ==> IsDigit(s[i])
    ensures FirstDigitRun(s) == s
  {
    assert SkipNonDigits(s) == s;
    assert |DigitPrefix(s)| == |s|;
  }

  /** The first maximal run of digits in `s`: `re.findall(r'\d+', s)[0]` when there is one. */
  function FirstDigitRun(s: string): (d: string)
    ensures forall i :: 0 <= i < |d| ==> IsDigit(d[i])
    ensures HasDigit(s) <==> d != []
  {
    DigitPrefix(SkipNonDigits(s))
  }

  /** The `(?:\.\d+)?` part: a '.' and the digits after it when a digit follows the '.', else nothing. */
  function DecimalTail(rest: string): (f: string)
    ensures f == [] || (|f| >= 2 && f[0] == '.' && IsDigit(f[|f| - 1]))
    ensures forall i :: 1 <= i < |f| ==> IsDigit(f[i])
  {
    if |rest| >= 2 && rest[0] == '.' && IsDigit(rest[1]) then
      var frac := DigitPrefix(rest[1..]);
      assert frac != [] by { assert IsDigit(rest[1..][0]); }
      ['.'] + frac
    else []
  }

  /** A run of digits followed by nothing or by a '.' and digits: digits and dots, a digit at each end. */
  lemma NumberChars(run: string, tail: string)
    requires forall i :: 0 <= i < |run| ==> IsDigit(run[i])
    requires tail == [] || (|tail| >= 2 && tail[0] == '.' && IsDigit(tail[|tail| - 1]))
    requires forall i :: 1 <= i < |tail| ==> IsDigit(tail[i])
    requires run != [] || tail == []
    ensures var n := run + tail;
      && (n != [] ==> IsDigit(n[0]) && IsDigit(n[|n| - 1]))
      && (forall i :: 0 <= i < |n| ==> IsDigit(n[i]) || n[i] == '.')
  {
  }

  /** The number at the start of `t`, which starts with a digit or is empty. */
  function NumberAt(t: string): (n: string)
    requires t == [] || IsDigit(t[0])
    ensures t != [] <==> n != []
    ensures |DigitPrefix(t)| <= |n| <= |t| && forall i :: 0 <= i < |n| ==> n[i] == t[i]
    ensures n != [] ==> IsDigit(n[0]) && IsDigit(n[|n| - 1])
    ensures forall i :: 0 <= i < |n| ==> IsDigit(n[i]) || n[i] == '.'
  {
    var run := DigitPrefix(t);
    var tail := DecimalTail(t[|run|..]);
    assert t != [] ==> run != [];
    NumberChars(run, tail);
    run + tail
  }

  /**
   * What `re.search(r'(\d+(?:\.\d+)?)', s)` captures: the first run of digits,
   * extended by a '.' and the digits after it when a digit follows the '.'.
   */
  function FirstNumber(s: string): (n: string)
    ensures HasDigit(s) <==> n != []
    ensures var t := SkipNonDigits(s);
      |DigitPrefix(t)| <= |n| <= |t| && forall i :: 0 <= i < |n| ==> n[i] == t[i]
    ensures n != [] ==> IsDigit(n[0]) && IsDigit(n[|n| - 1])
    ensures forall i :: 0 <= i < |n| ==> IsDigit(n[i]) || n[i] == '.'
  {
    NumberAt(SkipNonDigits(s))
  }

  /**
   * What `re.search(r'(\d{2,3})', s)` captures: at the first position holding two
   * digits, those two and a third one when it follows.
   */
  function TwoOrThreeDigits(s: string): (r: Option<string>)
    ensures r.Some? ==> 2 <= |r.value| <= 3 && forall i :: 0 <= i < |r.value| ==> IsDigit(r.value[i])
    decreases |s|
  {
    if |s| < 2 then None
    else if IsDigit(s[0]) && IsDigit(s[1]) then Some(if |s| >= 3 && IsDigit(s[2]) then s[..3] else s[..2])
    else TwoOrThreeDigits(s[1..])
  }

  /** Positions `i` and `i + 1` of `s` both hold digits. */
  predicate DigitPairAt(s: string, i: int) {
    0 <= i < |s| - 1 && IsDigit(s[i]) && IsDigit(s[i + 1])
  }

  /** `re.search(r'(\d{2,3})', s)` finds nothing exactly when no two digits are adjacent. */
  lemma {:induction false} TwoOrThreeDigitsNone(s: string)
    ensures TwoOrThreeDigits(s).None? <==> forall i :: 0 <= i < |s| - 1 ==> !DigitPairAt(s, i)
    decreases |s|
  {
    if |s| >= 2 && !(IsDigit(s[0]) && IsDigit(s[1])) {
      TwoOrThreeDigitsNone(s[1..]);
      if TwoOrThreeDigits(s).None? {
        forall i | 1 <= i < |s| - 1 ensures !DigitPairAt(s, i) {
          assert !DigitPairAt(s[1..], i - 1);
        }
      } else {
        var j :| 0 <= j < |s| - 2 && DigitPairAt(s[1..], j);
        assert DigitPairAt(s, j + 1);
      }
    } else if |s| >= 2 {
      assert DigitPairAt(s, 0);
    }
  }

  /**
   * A capture sits at the leftmost pair of adjacent digits, and is cut at two
   * digits only when no third digit follows.
   */
  lemma {:induction false} TwoOrThreeDigitsLeftmost(s: string) returns (p: nat)
    requires TwoOrThreeDigits(s).Some?
    ensures var d := TwoOrThreeDigits(s).value;
      && p + |d| <= |s| && s[p..p + |d|] == d && DigitPairAt(s, p)
      && (forall i :: 0 <= i < p ==> !DigitPairAt(s, i))
      && (|d| == 2 ==> p + 2 == |s| || !IsDigit(s[p + 2]))
    decreases |s|
  {
    if IsDigit(s[0]) && IsDigit(s[1]) {
      p := 0;
    } else {
      var q := TwoOrThreeDigitsLeftmost(s[1..]);
      p := q + 1;
      assert forall i :: 1 <= i < |s| - 1 ==> (DigitPairAt(s, i) <==> DigitPairAt(s[1..], i - 1));
      assert s[p..p + |TwoOrThreeDigits(s).value|] == s[1..][q..q + |TwoOrThreeDigits(s).value|];
    }
  }

  /** The position of the first `true` in `bs`, or |bs| when there is none. */
  function FirstTrue(bs: seq<bool>): (k: nat)
    ensures k <= |bs|
    ensures forall j :: 0 <= j < k ==> !bs[j]
    ensures k < |bs| ==> bs[k]
  {
    if bs == [] || bs[0] then 0 else 1 + FirstTrue(bs[1..])
  }

  /** For each search, whether it matches `text`. */
  function Matched<T>(text: string, searches: seq<string -> Option<T>>): (ms: seq<bool>)
    ensures |ms| == |searches|
    ensures forall k :: 0 <= k < |searches| ==> ms[k] == searches[k](text).Some?
  {
    seq(|searches|, k requires 0 <= k < |searches| => searches[k](text).Some?)
  }

  /** What the first search, in order, that matches `text` yields; None when none does. */
  function FirstFound<T>(text: string, searches: seq<string -> Option<T>>): (r: Option<T>)
    ensures r.None? <==> forall k :: 0 <= k < |searches| ==> searches[k](text).None?
    decreases |searches|
  {
    if searches == [] then None
    else if searches[0](text).Some? then searches[0](text)
    else
      var r := FirstFound(text, searches[1..]);
      assert forall k :: 1 <= k < |searches| ==> searches[k] == searches[1..][k - 1];
      r
  }

  /** FirstFound yields what the search at the first matching position yields. */
  lemma {:induction false} FirstFoundIsFirstMatch<T>(text: string, searches: seq<string -> Option<T>>)
    ensures var k := FirstTrue(Matched(text, searches));
      FirstFound(text, searches) == if k < |searches| then searches[k](text) else None
    decreases |searches|
  {
    if searches != [] && searches[0](text).None? {
      var flags, rest := Matched(text, searches), Matched(text, searches[1..]);
      assert flags[1..] == rest;
      assert FirstTrue(flags) == 1 + FirstTrue(rest);
      FirstFoundIsFirstMatch(text, searches[1..]);
      var k := FirstTrue(rest);
      if k < |searches| - 1 {
        assert searches[1 + k] == searches[1..][k];
      }
    }
  }

  // ---------------------------------------------------------------- strip

  function TrimLeft(s: string): (r: string)
    ensures |r| <= |s| && r == s[|s| - |r|..]
    ensures r == [] || !IsSpace(r[0])
    ensures forall i :: 0 <= i < |s| - |r| ==> IsSpace(s[i])
  {
    if s != [] && IsSpace(s[0]) then TrimLeft(s[1..]) else s
  }

  function TrimRight(s: string): (r: string)
    ensures |r| <= |s| && r == s[..|r|]
    ensures r == [] || !IsSpace(r[|r| - 1])
    ensures forall i :: |r| <= i < |s| ==> IsSpace(s[i])
  {
    if s != [] && IsSpace(s[|s| - 1]) then TrimRight(s[..|s| - 1]) else s
  }

  /** Python's `s.strip()`. */
  function Strip(s: string): (r: string)
    ensures |r| <= |s|
    ensures r == [] || (!IsSpace(r[0]) && !IsSpace(r[|r| - 1]))
  {
    TrimRight(TrimLeft(s))
  }

  /** `s.strip()` is the slice of `s` left once the whitespace at either end is cut off. */
  lemma StripSlice(s: string)
    ensures var k := |s| - |TrimLeft(s)|; var r := Strip(s);
      k + |r| <= |s| && r == s[k..k + |r|]
      && (forall i :: 0 <= i < k ==> IsSpace(s[i]))
      && (forall i :: k + |r| <= i < |s| ==> IsSpace(s[i]))
  {
    StripInside(s);
    StripTail(s);
  }

  /** The stripped text sits in `s` right after the leading whitespace. */
  lemma StripInside(s: string)
    ensures var k := |s| - |TrimLeft(s)|; var r := Strip(s);
      k + |r| <= |s| && r == s[k..k + |r|]
  {
    var l := TrimLeft(s);
    var r := TrimRight(l);
    var k := |s| - |l|;
    assert r == l[..|r|] && l == s[k..];
    assert s[k..][..|r|] == s[k..k + |r|];
  }

  /** Everything after the stripped text is whitespace. */
  lemma StripTail(s: string)
    ensures var k := |s| - |TrimLeft(s)|; var r := Strip(s);
      forall i :: k + |r| <= i < |s| ==> IsSpace(s[i])
  {
    var l := TrimLeft(s);
    var r := TrimRight(l);
    var k := |s| - |l|;
    forall i | k + |r| <= i < |s| ensures IsSpace(s[i]) {
      assert s[i] == l[i - k];
    }
  }

  /** A string with no whitespace at either end is its own strip. */
  lemma StripFixed(s: string)
    requires s == [] || (!IsSpace(s[0]) && !IsSpace(s[|s| - 1]))
    ensures Strip(s) == s
  {
  }

  /** A string is blank when it has no non-whitespace character. */
  predicate Blank(s: string) {
    forall i :: 0 <= i < |s| ==> IsSpace(s[i])
  }

  lemma {:induction false} StripEmptyIffBlank(s: string)
    ensures Strip(s) == [] <==> Blank(s)
  {
    StripSlice(s);
    var l := TrimLeft(s);
    if l != [] {
      assert !IsSpace(s[|s| - |l|]);
    }
  }

  /** Stripping keeps every character that is not whitespace. */
  lemma KeepsNonSpace(s: string, j: int)
    requires 0 <= j < |s| && !IsSpace(s[j])
    ensures exists k :: 0 <= k < |Strip(s)| && Strip(s)[k] == s[j]
  {
    StripSlice(s);
    var r := Strip(s);
    var k := |s| - |TrimLeft(s)|;
    assert k <= j < k + |r|;
    assert r[j - k] == s[j];
  }

  // ---------------------------------------------------------------- split()

  /** `s` without its leading run of whitespace. */
  function DropSpaces(s: string): (r: string)
    ensures r == TrimLeft(s)
  {
    if s != [] && IsSpace(s[0]) then DropSpaces(s[1..]) else s
  }

  /** `s` holds no whitespace character. */
  predicate NoSpace(s: string) {
    forall i :: 0 <= i < |s| ==> !IsSpace(s[i])
  }

  /** The longest prefix of `s` holding no whitespace. */
  function Word(s: string): (w: string)
    ensures |w| <= |s| && w == s[..|w|]
    ensures NoSpace(w)
    ensures |w| < |s| ==> IsSpace(s[|w|])
    ensures s != [] && !IsSpace(s[0]) ==> w != []
  {
    if s == [] || IsSpace(s[0]) then [] else [s[0]] + Word(s[1..])
  }

  /** Every element of `ts` is a non-empty run of non-whitespace. */
  predicate AllWords(ts: seq<string>) {
    forall k :: 0 <= k < |ts| ==> ts[k] != [] && NoSpace(ts[k])
  }

  lemma AllWordsCons(w: string, ts: seq<string>)
    requires w != [] && NoSpace(w) && AllWords(ts)
    ensures AllWords([w] + ts)
  {
    var r := [w] + ts;
    forall k | 1 <= k < |r| ensures r[k] == ts[k - 1] { }
  }

  /** Python's `s.split()` with no argument: the maximal runs of non-whitespace. */
  function Tokens(s: string): (ts: seq<string>)
    ensures AllWords(ts)
    decreases |s|
  {
    var t := DropSpaces(s);
    if t == [] then [] else
      var w := Word(t);
      var rest := Tokens(t[|w|..]);
      AllWordsCons(w, rest);
      [w] + rest
  }

  /** `s.split()` is empty exactly when `s` is all whitespace. */
  lemma TokensEmptyIffBlank(s: string)
    ensures Tokens(s) == [] <==> Blank(s)
  {
    var t := TrimLeft(s);
    if t != [] {
      assert !IsSpace(s[|s| - |t|]);
    }
  }

  // ---------------------------------------------------------------- split('\n') / join

  /** Python's `s.split(sep)` for a one-character separator: never empty. */
  function SplitOn(s: string, sep: char): (parts: seq<string>)
    ensures |parts| >= 1
    ensures forall k :: 0 <= k < |parts| ==> !ContainsChar(parts[k], sep)
    decreases |s|
  {
    if s == [] then [[]]
    else
      var rest := SplitOn(s[1..], sep);
      if s[0] == sep then [[]] + rest else [[s[0]] + rest[0]] + rest[1..]
  }

  /** Python's `sep.join(parts)`. */
  function JoinWith(parts: seq<string>, sep: string): string {
    if parts == [] then []
    else if |parts| == 1 then parts[0]
    else parts[0] + sep + JoinWith(parts[1..], sep)
  }

  /** Joining `s.split(sep)` with `sep` gives back `s`. */
  lemma {:induction false} SplitOnJoin(s: string, sep: char)
    ensures JoinWith(SplitOn(s, sep), [sep]) == s
    decreases |s|
  {
    if s != [] {
      var rest := SplitOn(s[1..], sep);
      SplitOnJoin(s[1..], sep);
      if s[0] == sep {
        assert ([[]] + rest)[1..] == rest;
      } else {
        JoinCons(s[0], rest, [sep]);
      }
      assert s == [s[0]] + s[1..];
    }
  }

  /** Prefixing a character to the first part prefixes it to the joined text. */
  lemma JoinCons(c: char, parts: seq<string>, sep: string)
    requires parts != []
    ensures JoinWith([[c] + parts[0]] + parts[1..], sep) == [c] + JoinWith(parts, sep)
  {
    var ps := [[c] + parts[0]] + parts[1..];
    if |parts| > 1 {
      assert ps[1..] == parts[1..];
    }
  }
}
