/**
 * Python `str` operations the pipeline relies on, over `seq<char>`.
 * Case mapping is ASCII-only; word characters are ASCII letters, digits and `_`.
 */
module Strings {

  // ---------------------------------------------------------------- characters

  /** `str.isspace()`, which is also what `\s` and `str.strip()` use. */
  predicate IsSpace(c: char) {
    ('\t' <= c <= '\r') || ('\U{1c}' <= c <= '\U{1f}') || c == ' '
    || c == '\U{85}' || c == '\U{a0}' || c == '\U{1680}'
    || ('\U{2000}' <= c <= '\U{200a}') || c == '\U{2028}' || c == '\U{2029}'
    || c == '\U{202f}' || c == '\U{205f}' || c == '\U{3000}'
  }

  /** The boundaries `str.splitlines()` splits at (`\r\n` counts as one). */
  predicate IsLineBreak(c: char) {
    ('\n' <= c <= '\r') || ('\U{1c}' <= c <= '\U{1e}')
    || c == '\U{85}' || c == '\U{2028}' || c == '\U{2029}'
  }

  predicate IsDigit(c: char) { '0' <= c <= '9' }

  predicate IsLowerAlnum(c: char) { 'a' <= c <= 'z' || IsDigit(c) }

  predicate IsAlnum(c: char) { IsLowerAlnum(c) || 'A' <= c <= 'Z' }

  /** The `\w` class, on which `\b` is defined. */
  predicate IsWordChar(c: char) { IsAlnum(c) || c == '_' }

  function LowerChar(c: char): char {
    if 'A' <= c <= 'Z' then (c as int + 32) as char else c
  }

  function UpperChar(c: char): char {
    if 'a' <= c <= 'z' then (c as int - 32) as char else c
  }

  function Lower(s: string): string {
    seq(|s|, i requires 0 <= i < |s| => LowerChar(s[i]))
  }

  function Upper(s: string): string {
    seq(|s|, i requires 0 <= i < |s| => UpperChar(s[i]))
  }

  predicate AllSpace(s: string) {
    forall i | 0 <= i < |s| :: IsSpace(s[i])
  }

  predicate AllDigits(s: string) {
    forall i | 0 <= i < |s| :: IsDigit(s[i])
  }

  /** `re.fullmatch(r"[a-z0-9]+", s)` */
  predicate IsLowerAlnumWord(s: string) {
    |s| > 0 && forall i | 0 <= i < |s| :: IsLowerAlnum(s[i])
  }

  // ---------------------------------------------------------------- strip

  /** Number of whitespace characters at the start of `s`. */
  function LeadSpaces(s: string): (k: nat)
    ensures k <= |s| && AllSpace(s[..k])
    ensures k < |s| ==> !IsSpace(s[k])
  {
    if |s| > 0 && IsSpace(s[0]) then
      var k := 1 + LeadSpaces(s[1..]);
      assert forall j | 1 <= j < k :: s[..k][j] == s[1..][..k - 1][j - 1];
      k
    else 0
  }

  /** Number of whitespace characters at the end of `s`. */
  function TrailSpaces(s: string): (k: nat)
    ensures k <= |s| && AllSpace(s[|s| - k..])
    ensures k < |s| ==> !IsSpace(s[|s| - 1 - k])
  {
    if |s| > 0 && IsSpace(s[|s| - 1]) then
      var k := 1 + TrailSpaces(s[..|s| - 1]);
      k
    else 0
  }

  function LStrip(s: string): string {
    s[LeadSpaces(s)..]
  }

  function RStrip(s: string): string {
    s[..|s| - TrailSpaces(s)]
  }

  /** `str.strip()` */
  function Strip(s: string): string {
    RStrip(LStrip(s))
  }

  /** Neither end of `s` is whitespace. */
  predicate Trimmed(s: string) {
    s == [] || (!IsSpace(s[0]) && !IsSpace(s[|s| - 1]))
  }

  lemma StripShape(s: string)
    ensures Trimmed(Strip(s))
    ensures exists a, b :: s == a + Strip(s) + b && AllSpace(a) && AllSpace(b)
    ensures Strip(s) == [] <==> AllSpace(s)
  {
    StripTrimmed(s);
    StripBetweenSpaces(s);
    StripEmptyIff(s);
  }

  lemma StripTrimmed(s: string)
    ensures Trimmed(Strip(s))
  {
    var k := LeadSpaces(s);
    var l := s[k..];
    var m := TrailSpaces(l);
    var r := l[..|l| - m];
    assert Strip(s) == r;
    if r != [] {
      assert r[0] == l[0] == s[k];
      assert r[|r| - 1] == l[|l| - 1 - m];
    }
  }

  lemma StripBetweenSpaces(s: string)
    ensures exists a, b :: s == a + Strip(s) + b && AllSpace(a) && AllSpace(b)
  {
    var k := LeadSpaces(s);
    var l := s[k..];
    var m := TrailSpaces(l);
    var j := |s| - m;
    assert Strip(s) == s[k..j] by {
      assert l[..|l| - m] == s[k..j];
    }
    assert AllSpace(s[j..]) by {
      assert l[|l| - m..] == s[j..];
    }
    SplitThree(s, k, j);
    assert s == s[..k] + Strip(s) + s[j..];
  }

  lemma SplitThree(s: string, i: nat, j: nat)
    requires i <= j <= |s|
    ensures s == s[..i] + s[i..j] + s[j..]
  {
  }

  lemma StripEmptyIff(s: string)
    ensures Strip(s) == [] <==> AllSpace(s)
  {
    var k := LeadSpaces(s);
    var l := s[k..];
    var m := TrailSpaces(l);
    assert Strip(s) == l[..|l| - m];
    if AllSpace(s) {
      assert k == |s|;
    }
    if Strip(s) == [] {
      assert m == |l|;
      assert AllSpace(l) by { assert l[|l| - m..] == l; }
      assert k == |s|;
      assert s[..k] == s;
    }
  }

  lemma StripOfTrimmed(s: string)
    requires Trimmed(s)
    ensures Strip(s) == s
  {
  }

  // ---------------------------------------------------------------- \s+ -> " "

  /** `re.sub(r"\s+", " ", s)`: every maximal run of whitespace becomes one space. */
  function CollapseSpaces(s: string): (r: string)
    ensures |r| <= |s|
    ensures s != [] ==> r != [] && r[0] == (if IsSpace(s[0]) then ' ' else s[0])
    ensures SingleSpaced(r)
    decreases |s|
  {
    if s == [] then []
    else if IsSpace(s[0]) then [' '] + CollapseSpaces(LStrip(s))
    else [s[0]] + CollapseSpaces(s[1..])
  }

  /**
   * The only whitespace character is ' ', and no two of them are adjacent:
   * what `re.sub(r"\s+", " ", ...)` leaves behind.
   */
  predicate SingleSpaced(s: string) {
    (forall i | 0 <= i < |s| :: IsSpace(s[i]) ==> s[i] == ' ')
    && (forall i | 0 < i < |s| :: IsSpace(s[i]) ==> !IsSpace(s[i - 1]))
  }

  /** The characters of `s` that are not whitespace, in order. */
  function NonSpace(s: string): string {
    if s == [] then []
    else (if IsSpace(s[0]) then [] else [s[0]]) + NonSpace(s[1..])
  }

  lemma {:induction false} NonSpaceConcat(a: string, b: string)
    ensures NonSpace(a + b) == NonSpace(a) + NonSpace(b)
    decreases |a|
  {
    if a != [] {
      assert (a + b)[0] == a[0] && (a + b)[1..] == a[1..] + b;
      NonSpaceConcat(a[1..], b);
      var h: string := if IsSpace(a[0]) then [] else [a[0]];
      assert NonSpace(a) == h + NonSpace(a[1..]);
      assert NonSpace(a + b) == h + NonSpace(a[1..] + b);
      assert h + (NonSpace(a[1..]) + NonSpace(b)) == (h + NonSpace(a[1..])) + NonSpace(b);
    } else {
      assert a + b == b;
    }
  }

  lemma {:induction false} NonSpaceOfAllSpace(s: string)
    requires AllSpace(s)
    ensures NonSpace(s) == []
    decreases |s|
  {
    if s != [] { NonSpaceOfAllSpace(s[1..]); }
  }

  /** Collapsing changes only whitespace: the other characters survive, in order. */
  lemma {:induction false} CollapseKeepsText(s: string)
    ensures NonSpace(CollapseSpaces(s)) == NonSpace(s)
    decreases |s|
  {
    if s == [] {
    } else if IsSpace(s[0]) {
      var l := LStrip(s);
      CollapseKeepsText(l);
      NonSpaceConcat([' '], CollapseSpaces(l));
      assert s == s[..|s| - |l|] + l;
      NonSpaceConcat(s[..|s| - |l|], l);
      NonSpaceOfAllSpace(s[..|s| - |l|]);
    } else {
      CollapseKeepsText(s[1..]);
      NonSpaceConcat([s[0]], CollapseSpaces(s[1..]));
    }
  }

  lemma StripKeepsText(s: string)
    ensures NonSpace(Strip(s)) == NonSpace(s)
  {
    StripShape(s);
    var a, b :| s == a + Strip(s) + b && AllSpace(a) && AllSpace(b);
    NonSpaceConcat(a + Strip(s), b);
    NonSpaceConcat(a, Strip(s));
    NonSpaceOfAllSpace(a);
    NonSpaceOfAllSpace(b);
  }

  lemma SingleSpacedSlice(s: string, i: nat, j: nat)
    requires SingleSpaced(s) && i <= j <= |s|
    ensures SingleSpaced(s[i..j])
  {
    var t := s[i..j];
    forall k | 0 < k < |t| ensures IsSpace(t[k]) ==> !IsSpace(t[k - 1]) {
      assert t[k] == s[i + k] && t[k - 1] == s[i + k - 1];
    }
  }

  lemma SingleSpacedStrip(s: string)
    requires SingleSpaced(s)
    ensures SingleSpaced(Strip(s))
  {
    var l := LStrip(s);
    SingleSpacedSlice(s, |s| - |l|, |s|);
    SingleSpacedSlice(l, 0, |RStrip(l)|);
  }

  /** A single-spaced string holds no line break, so it is at most one line. */
  lemma SingleSpacedNoLineBreak(s: string)
    requires SingleSpaced(s)
    ensures forall i | 0 <= i < |s| :: !IsLineBreak(s[i])
  {
    forall i | 0 <= i < |s| ensures !IsLineBreak(s[i]) {
      if IsLineBreak(s[i]) { assert IsSpace(s[i]); }
    }
  }

  /** `re.sub(r"\s+", " ", s)` leaves single-spaced text as it is. */
  lemma {:induction false} CollapseOfSingleSpaced(s: string)
    requires SingleSpaced(s)
    ensures CollapseSpaces(s) == s
    decreases |s|
  {
    if s != [] {
      SingleSpacedSlice(s, 1, |s|);
      if IsSpace(s[0]) {
        assert |s| > 1 ==> !IsSpace(s[1]);
        assert LStrip(s) == s[1..];
      }
      CollapseOfSingleSpaced(s[1..]);
    }
  }

  lemma {:induction false} NonSpaceLength(s: string)
    ensures |NonSpace(s)| <= |s|
    decreases |s|
  {
    if s != [] { NonSpaceLength(s[1..]); }
  }

  /** A string that is its own `NonSpace` holds no whitespace. */
  lemma {:induction false} NonSpaceFixed(s: string)
    requires NonSpace(s) == s
    ensures forall j | 0 <= j < |s| :: !IsSpace(s[j])
    decreases |s|
  {
    if s != [] {
      NonSpaceLength(s[1..]);
      assert !IsSpace(s[0]);
      assert NonSpace(s) == [s[0]] + NonSpace(s[1..]);
      assert NonSpace(s[1..]) == s[1..];
      NonSpaceFixed(s[1..]);
      assert forall j | 1 <= j < |s| :: s[j] == s[1..][j - 1];
    }
  }

  /** Words joined by single spaces: one trimmed, single-spaced string. */
  lemma {:induction false} JoinWordsShape(ws: seq<string>)
    requires forall k | 0 <= k < |ws| :: ws[k] != [] && forall j | 0 <= j < |ws[k]| :: !IsSpace(ws[k][j])
    ensures Trimmed(Join(" ", ws)) && SingleSpaced(Join(" ", ws))
    ensures ws != [] ==> Join(" ", ws) != []
    decreases |ws|
  {
    if |ws| > 1 {
      JoinWordsShape(ws[1..]);
      var w := ws[0];
      var rest := Join(" ", ws[1..]);
      var s := Join(" ", ws);
      assert s == w + " " + rest;
      assert forall i | 0 <= i < |w| :: s[i] == w[i];
      assert s[|w|] == ' ';
      assert forall i | |w| < i < |s| :: s[i] == rest[i - |w| - 1];
      assert !IsSpace(rest[0]) && !IsSpace(rest[|rest| - 1]);
    }
  }

  /** No character of `s` equals `c`. */
  predicate Lacks(s: string, c: char) {
    forall i | 0 <= i < |s| :: s[i] != c
  }

  lemma LacksNotContains(s: string, pat: string)
    requires pat != [] && Lacks(s, pat[0])
    ensures !Contains(s, pat)
  {
  }

  // ---------------------------------------------------------------- search

  predicate OccursAt(s: string, t: string, i: nat) {
    i + |t| <= |s| && s[i..i + |t|] == t
  }

  /** `t in s` */
  predicate Contains(s: string, t: string) {
    exists i | 0 <= i <= |s| :: OccursAt(s, t, i)
  }

  /** Python's `any(t in s for t in ts)`. */
  predicate ContainsAny(s: string, ts: seq<string>) {
    exists k | 0 <= k < |ts| :: Contains(s, ts[k])
  }

  /** `s` occurs at `i` with no word character immediately before or after it. */
  predicate WordAt(s: string, t: string, i: nat) {
    OccursAt(s, t, i)
    && (i == 0 || !IsWordChar(s[i - 1]))
    && (i + |t| == |s| || !IsWordChar(s[i + |t|]))
  }

  /** `re.search(r"\b" + t + r"\b", s)` for a `t` made of word characters. */
  predicate ContainsWord(s: string, t: string) {
    exists i | 0 <= i <= |s| :: WordAt(s, t, i)
  }

  lemma ContainsWordContains(s: string, t: string)
    requires ContainsWord(s, t)
    ensures Contains(s, t)
  {
    var i :| 0 <= i <= |s| && WordAt(s, t, i);
    assert OccursAt(s, t, i);
  }

  lemma ContainsInfix(s: string, t: string, u: string, i: nat)
    requires OccursAt(s, t, i) && Contains(t, u)
    ensures Contains(s, u)
  {
    var j :| 0 <= j <= |t| && OccursAt(t, u, j);
    forall k | 0 <= k < |u| ensures s[i + j + k] == u[k] {
      assert u[k] == t[j + k] == s[i + j + k];
    }
    assert s[i + j..i + j + |u|] == u;
    assert OccursAt(s, u, i + j);
  }

  /** A string contains every prefix of itself. */
  lemma ContainsPrefix(s: string, k: nat)
    requires k <= |s|
    ensures Contains(s, s[..k])
  {
    assert OccursAt(s, s[..k], 0);
  }

  /** Index of the first occurrence of `c`, or `|s|`. */
  function IndexOf(s: string, c: char): (k: nat)
    ensures k <= |s|
    ensures k < |s| ==> s[k] == c
    ensures forall j | 0 <= j < k :: s[j] != c
  {
    if s == [] then 0
    else if s[0] == c then 0
    else 1 + IndexOf(s[1..], c)
  }

  // ---------------------------------------------------------------- split, join

  /** `sep.join(xs)` */
  function Join(sep: string, xs: seq<string>): string {
    if |xs| == 0 then ""
    else if |xs| == 1 then xs[0]
    else xs[0] + sep + Join(sep, xs[1..])
  }

  /** `s.split(c)` for a one-character separator. */
  function SplitOn(s: string, c: char): (r: seq<string>)
    ensures |r| >= 1
    ensures forall k, j | 0 <= k < |r| && 0 <= j < |r[k]| :: r[k][j] != c
    decreases |s|
  {
    var k := IndexOf(s, c);
    if k == |s| then [s] else [s[..k]] + SplitOn(s[k + 1..], c)
  }

  /** Splitting at `c` and joining with `c` gives the string back. */
  lemma {:induction false} JoinSplitOn(s: string, c: char)
    ensures Join([c], SplitOn(s, c)) == s
    decreases |s|
  {
    var k := IndexOf(s, c);
    if k < |s| {
      var rest := SplitOn(s[k + 1..], c);
      var xs := [s[..k]] + rest;
      assert SplitOn(s, c) == xs;
      assert xs[0] == s[..k] && xs[1..] == rest && |xs| >= 2;
      assert Join([c], xs) == s[..k] + [c] + Join([c], rest);
      JoinSplitOn(s[k + 1..], c);
      assert s == s[..k] + [c] + s[k + 1..];
    }
  }

  /** Joining strings free of `c` with `c` and splitting at `c` gives them back. */
  lemma {:induction false} SplitOnJoin(xs: seq<string>, c: char)
    requires |xs| >= 1
    requires forall k | 0 <= k < |xs| :: Lacks(xs[k], c)
    ensures SplitOn(Join([c], xs), c) == xs
    decreases |xs|
  {
    var s := Join([c], xs);
    if |xs| == 1 {
      assert IndexOf(s, c) == |s|;
    } else {
      var rest := Join([c], xs[1..]);
      assert s == xs[0] + [c] + rest;
      assert s[|xs[0]|] == c;
      assert IndexOf(s, c) == |xs[0]|;
      assert s[..|xs[0]|] == xs[0] && s[|xs[0]| + 1..] == rest;
      SplitOnJoin(xs[1..], c);
    }
  }

  /** `s.split()`: the maximal runs of non-whitespace characters. */
  function Words(s: string): (r: seq<string>)
    ensures forall k | 0 <= k < |r| :: r[k] != [] && NonSpace(r[k]) == r[k]
    decreases |s|
  {
    var t := LStrip(s);
    if t == [] then []
    else
      var k := FirstSpace(t);
      [t[..k]] + Words(t[k..])
  }

  /** Index of the first whitespace character, or `|s|`. */
  function FirstSpace(s: string): (k: nat)
    ensures k <= |s|
    ensures forall j | 0 <= j < k :: !IsSpace(s[j])
    ensures s != [] && !IsSpace(s[0]) ==> k > 0
    ensures NonSpace(s[..k]) == s[..k]
  {
    if s == [] || IsSpace(s[0]) then 0
    else
      var k := 1 + FirstSpace(s[1..]);
      assert s[..k][1..] == s[1..][..k - 1];
      k
  }

  /** Length of the line break at the start of `s`: `\r\n` is one break of two characters. */
  function BreakLen(s: string): nat
    requires s != [] && IsLineBreak(s[0])
  {
    if s[0] == '\r' && |s| > 1 && s[1] == '\n' then 2 else 1
  }

  function FirstBreak(s: string): (k: nat)
    ensures k <= |s|
    ensures k < |s| ==> IsLineBreak(s[k])
    ensures forall j | 0 <= j < k :: !IsLineBreak(s[j])
  {
    if s == [] || IsLineBreak(s[0]) then 0 else 1 + FirstBreak(s[1..])
  }

  /** `str.splitlines()` */
  function SplitLines(s: string): (r: seq<string>)
    ensures forall k, j | 0 <= k < |r| && 0 <= j < |r[k]| :: !IsLineBreak(r[k][j])
    decreases |s|
  {
    if s == [] then []
    else
      var k := FirstBreak(s);
      if k == |s| then [s] else [s[..k]] + SplitLines(s[k + BreakLen(s[k..])..])
  }

  /** Text without line breaks is at most one line. */
  lemma SplitLinesOneLine(s: string)
    requires forall i | 0 <= i < |s| :: !IsLineBreak(s[i])
    ensures SplitLines(s) == if s == [] then [] else [s]
  {
  }

  predicate NoLineBreak(s: string) {
    forall i | 0 <= i < |s| :: !IsLineBreak(s[i])
  }

  lemma NoLineBreakLower(s: string)
    requires NoLineBreak(s)
    ensures NoLineBreak(Lower(s))
  {
  }

  lemma NoLineBreakStrip(s: string)
    requires NoLineBreak(s)
    ensures NoLineBreak(Strip(s))
  {
    var l := LStrip(s);
    assert forall j | 0 <= j < |l| :: l[j] == s[j + |s| - |l|];
  }

  /** Non-empty lines joined with `\n` split back into the same lines. */
  lemma {:induction false} SplitLinesJoin(xs: seq<string>)
    requires forall k | 0 <= k < |xs| :: xs[k] != [] && NoLineBreak(xs[k])
    ensures SplitLines(Join("\n", xs)) == xs
    decreases |xs|
  {
    if |xs| == 1 {
      SplitLinesOneLine(xs[0]);
    } else if |xs| > 1 {
      var s := Join("\n", xs);
      var rest := Join("\n", xs[1..]);
      assert s == xs[0] + "\n" + rest;
      assert s[|xs[0]|] == '\n';
      assert FirstBreak(s) == |xs[0]|;
      assert s[|xs[0]|..][0] == '\n';
      assert s[..|xs[0]|] == xs[0] && s[|xs[0]| + 1..] == rest;
      SplitLinesJoin(xs[1..]);
    }
  }

  /** `s.replace(pat, rep)`: leftmost, non-overlapping occurrences. */
  function ReplaceAll(s: string, pat: string, rep: string): string
    requires pat != []
    decreases |s|
  {
    if |s| < |pat| then s
    else if s[..|pat|] == pat then rep + ReplaceAll(s[|pat|..], pat, rep)
    else [s[0]] + ReplaceAll(s[1..], pat, rep)
  }

  /** Replacing a pattern that does not occur changes nothing. */
  lemma {:induction false} ReplaceAbsent(s: string, pat: string, rep: string)
    requires pat != [] && !Contains(s, pat)
    ensures ReplaceAll(s, pat, rep) == s
    decreases |s|
  {
    if |s| >= |pat| {
      assert !OccursAt(s, pat, 0);
      forall i | 0 <= i <= |s[1..]| ensures !OccursAt(s[1..], pat, i) {
        if OccursAt(s[1..], pat, i) {
          assert s[i + 1..i + 1 + |pat|] == s[1..][i..i + |pat|];
          assert OccursAt(s, pat, i + 1);
        }
      }
      ReplaceAbsent(s[1..], pat, rep);
    }
  }

  // ---------------------------------------------------------------- prefixes and ordered de-duplication

  /** The first `n` elements of `xs`, or all of them when there are fewer: Python's `xs[:n]`. */
  function Take<T>(xs: seq<T>, n: nat): (r: seq<T>)
    ensures |r| <= n && r <= xs
    ensures |xs| <= n ==> r == xs
  {
    if |xs| <= n then xs else xs[..n]
  }

  /** Elements of `xs` not in `seen`, first occurrence kept, in order (`dict.fromkeys`). */
  function DistinctFrom<T(==)>(xs: seq<T>, seen: set<T>): seq<T>
    decreases |xs|
  {
    if xs == [] then []
    else if xs[0] in seen then DistinctFrom(xs[1..], seen)
    else [xs[0]] + DistinctFrom(xs[1..], seen + {xs[0]})
  }

  function Distinct<T(==)>(xs: seq<T>): seq<T> {
    DistinctFrom(xs, {})
  }

  /**
   * The ordered de-duplication keeps elements of `xs` outside `seen`, each once, and
   * keeps every one of them.
   */
  lemma {:induction false} DistinctFromSpec<T>(xs: seq<T>, seen: set<T>)
    ensures var r := DistinctFrom(xs, seen);
      && (forall x | x in r :: x in xs && x !in seen)
      && (forall i, j | 0 <= i < j < |r| :: r[i] != r[j])
      && (forall x | x in xs && x !in seen :: x in r)
    decreases |xs|
  {
    if xs != [] {
      if xs[0] in seen {
        DistinctFromSpec(xs[1..], seen);
      } else {
        DistinctFromSpec(xs[1..], seen + {xs[0]});
      }
    }
  }

  /** One step of the seen-set loop: an element already seen is skipped, a new one is kept and remembered. */
  lemma DistinctFromCons<T>(x: T, xs: seq<T>, seen: set<T>)
    ensures DistinctFrom([x] + xs, seen)
      == if x in seen then DistinctFrom(xs, seen) else [x] + DistinctFrom(xs, seen + {x})
  {
    assert ([x] + xs)[1..] == xs;
  }

  /** The seen-set loop that keeps each element the first time it appears. */
  method DistinctInOrder<T(==)>(xs: seq<T>) returns (out: seq<T>)
    ensures out == Distinct(xs)
  {
    var seen: set<T> := {};
    out := [];
    for i := 0 to |xs|
      invariant out + DistinctFrom(xs[i..], seen) == Distinct(xs)
    {
      var x := xs[i];
      assert xs[i..] == [x] + xs[i + 1..];
      DistinctFromCons(x, xs[i + 1..], seen);
      if x in seen {
        continue;
      }
      seen := seen + {x};
      out := out + [x];
    }
  }

  /**
   * The elements of `r` appear in the order in which their values first appear in `xs`:
   * wherever a later element of `r` occurs in `xs`, every earlier one has already occurred.
   */
  predicate InFirstSeenOrder<T(==)>(r: seq<T>, xs: seq<T>) {
    forall k1, k2, j | 0 <= k1 < k2 < |r| && 0 <= j < |xs| && xs[j] == r[k2] :: r[k1] in xs[..j]
  }

  /** Every element of `r` has occurred in `xs` before any value `r` leaves out. */
  predicate FirstSeenPrefix<T(==)>(r: seq<T>, xs: seq<T>) {
    forall k, i | 0 <= k < |r| && 0 <= i < |xs| && xs[i] !in r :: r[k] in xs[..i]
  }

  /** The ordered de-duplication deletes elements of `xs` and keeps the rest in their order. */
  lemma {:induction false} DistinctFromSubseq<T>(xs: seq<T>, seen: set<T>)
    ensures IsSubseq(DistinctFrom(xs, seen), xs)
    decreases |xs|
  {
    if xs != [] {
      var r := DistinctFrom(xs, seen);
      if xs[0] in seen {
        DistinctFromSubseq(xs[1..], seen);
      } else {
        DistinctFromSubseq(xs[1..], seen + {xs[0]});
        assert r[0] == xs[0] && r[1..] == DistinctFrom(xs[1..], seen + {xs[0]});
      }
    }
  }

  /** The ordered de-duplication keeps each value at its first occurrence. */
  lemma {:induction false} DistinctFromOrder<T>(xs: seq<T>, seen: set<T>)
    ensures InFirstSeenOrder(DistinctFrom(xs, seen), xs)
    decreases |xs|
  {
    if xs != [] {
      var x, t := xs[0], xs[1..];
      var r := DistinctFrom(xs, seen);
      forall k1, k2, j | 0 <= k1 < k2 < |r| && 0 <= j < |xs| && xs[j] == r[k2]
        ensures r[k1] in xs[..j]
      {
        if x in seen {
          DistinctFromOrder(t, seen);
          DistinctFromSpec(t, seen);
          assert r[k2] in r;
          assert j != 0;
          assert t[j - 1] == r[k2];
          assert r[k1] in t[..j - 1];
          assert t[..j - 1] == xs[1..j];
        } else {
          var r' := DistinctFrom(t, seen + {x});
          assert r == [x] + r';
          DistinctFromSpec(t, seen + {x});
          assert r[k2] == r'[k2 - 1] && r'[k2 - 1] in r';
          assert j != 0;
          if k1 == 0 {
            assert xs[..j][0] == x;
          } else {
            DistinctFromOrder(t, seen + {x});
            assert t[j - 1] == r'[k2 - 1];
            assert r'[k1 - 1] in t[..j - 1];
            assert t[..j - 1] == xs[1..j];
          }
        }
      }
    }
  }

  /**
   * `r` is the first `n` distinct values of `xs`: at most `n` of them, each once, deleted
   * from `xs` in their order, each at its first occurrence, every one occurring before any
   * value left out, and a value left out only when `n` are kept.
   */
  predicate FirstDistinctOf<T(==)>(r: seq<T>, xs: seq<T>, n: nat) {
    && |r| <= n
    && (forall i, j | 0 <= i < j < |r| :: r[i] != r[j])
    && IsSubseq(r, xs)
    && InFirstSeenOrder(r, xs)
    && FirstSeenPrefix(r, xs)
    && (forall x | x in xs :: x in r || |r| == n)
  }

  /** `Distinct(xs)[:n]` is the first `n` distinct values of `xs`. */
  lemma FirstDistinct<T>(xs: seq<T>, n: nat)
    ensures FirstDistinctOf(Take(Distinct(xs), n), xs, n)
  {
    var d := Distinct(xs);
    var r := Take(d, n);
    DistinctFromSpec(xs, {});
    DistinctFromSubseq(xs, {});
    DistinctFromOrder(xs, {});
    SubseqPrefix(r, d, xs);
    forall k, i | 0 <= k < |r| && 0 <= i < |xs| && xs[i] !in r ensures r[k] in xs[..i] {
      var m :| 0 <= m < |d| && d[m] == xs[i];
      assert d[k] == r[k];
    }
    forall x | x in xs ensures x in r || |r| == n {
      if |d| <= n {
        assert r == d;
      }
    }
  }

  /** A prefix of a subsequence is a subsequence. */
  lemma {:induction false} SubseqPrefix<T>(p: seq<T>, a: seq<T>, b: seq<T>)
    requires p <= a && IsSubseq(a, b)
    ensures IsSubseq(p, b)
    decreases |b|
  {
    if p != [] {
      if a[0] == b[0] && IsSubseq(a[1..], b[1..]) {
        SubseqPrefix(p[1..], a[1..], b[1..]);
      } else {
        SubseqPrefix(p, a, b[1..]);
      }
    }
  }

  // ---------------------------------------------------------------- filtering

  /** `[x for x in xs if p(x)]` */
  function Filter<T>(xs: seq<T>, p: T -> bool): seq<T>
    decreases |xs|
  {
    if xs == [] then [] else (if p(xs[0]) then [xs[0]] else []) + Filter(xs[1..], p)
  }

  /** `a` is `b` with some elements deleted, the rest in their order. */
  predicate IsSubseq<T(==)>(a: seq<T>, b: seq<T>)
    decreases |b|
  {
    a == [] || (b != [] && ((a[0] == b[0] && IsSubseq(a[1..], b[1..])) || IsSubseq(a, b[1..])))
  }

  /** The filter keeps exactly the elements that pass, in their order. */
  lemma {:induction false} FilterSpec<T>(xs: seq<T>, p: T -> bool)
    ensures forall x | x in Filter(xs, p) :: x in xs && p(x)
    ensures forall x | x in xs && p(x) :: x in Filter(xs, p)
    ensures IsSubseq(Filter(xs, p), xs)
    ensures |Filter(xs, p)| <= |xs|
    decreases |xs|
  {
    if xs != [] {
      FilterSpec(xs[1..], p);
      assert xs == [xs[0]] + xs[1..];
      var r := Filter(xs, p);
      if p(xs[0]) {
        assert r[0] == xs[0] && r[1..] == Filter(xs[1..], p);
      } else {
        assert r == Filter(xs[1..], p);
      }
    }
  }

  /** A filter that every element passes is the identity. */
  lemma {:induction false} FilterAll<T>(xs: seq<T>, p: T -> bool)
    requires forall i | 0 <= i < |xs| :: p(xs[i])
    ensures Filter(xs, p) == xs
    decreases |xs|
  {
    if xs != [] {
      FilterAll(xs[1..], p);
      assert [xs[0]] + xs[1..] == xs;
    }
  }

  /** `rel` holds of every pair of elements in their order. */
  predicate Pairwise<T>(xs: seq<T>, rel: (T, T) -> bool) {
    forall i, j | 0 <= i < j < |xs| :: rel(xs[i], xs[j])
  }

  lemma {:induction false} FilterPairwise<T>(xs: seq<T>, p: T -> bool, rel: (T, T) -> bool)
    requires Pairwise(xs, rel)
    ensures Pairwise(Filter(xs, p), rel)
    decreases |xs|
  {
    if xs != [] {
      var tail := xs[1..];
      assert Pairwise(tail, rel) by {
        forall i, j | 0 <= i < j < |tail| ensures rel(tail[i], tail[j]) {
          assert tail[i] == xs[i + 1] && tail[j] == xs[j + 1];
        }
      }
      FilterPairwise(tail, p, rel);
      var rest := Filter(tail, p);
      if p(xs[0]) {
        FilterSpec(tail, p);
        forall y | y in rest ensures rel(xs[0], y) {
          var k :| 0 <= k < |tail| && tail[k] == y;
          assert xs[k + 1] == y;
        }
        var r := Filter(xs, p);
        assert r == [xs[0]] + rest;
        forall i, j | 0 <= i < j < |r| ensures rel(r[i], r[j]) {
          if i == 0 {
            assert r[j] == rest[j - 1];
          } else {
            assert r[i] == rest[i - 1] && r[j] == rest[j - 1];
          }
        }
      } else {
        assert Filter(xs, p) == rest;
      }
    }
  }

  /** A sequence without repeated elements holds each at most once. */
  lemma {:induction false} NoRepeatsMultiset<T>(xs: seq<T>)
    requires forall i, j | 0 <= i < j < |xs| :: xs[i] != xs[j]
    ensures forall x :: multiset(xs)[x] <= 1
    decreases |xs|
  {
    if xs != [] {
      NoRepeatsMultiset(xs[1..]);
      assert xs == [xs[0]] + xs[1..];
      assert xs[0] !in xs[1..] by {
        forall k | 0 <= k < |xs[1..]| ensures xs[1..][k] != xs[0] {
          assert xs[1..][k] == xs[k + 1];
        }
      }
    }
  }

  // ---------------------------------------------------------------- numbers

  function DigitChar(d: nat): char
    requires d < 10
  {
    ('0' as int + d) as char
  }

  /** `str(n)` for a natural number. */
  function NatToString(n: nat): string
    decreases n
  {
    if n < 10 then [DigitChar(n)] else NatToString(n / 10) + [DigitChar(n % 10)]
  }

  /** `str(n)` is a non-empty run of decimal digits. */
  lemma {:induction false} NatToStringDigits(n: nat)
    ensures NatToString(n) != [] && AllDigits(NatToString(n))
    decreases n
  {
    if n >= 10 {
      NatToStringDigits(n / 10);
    }
  }

  /** `str(i)` */
  function IntToString(i: int): string {
    if i < 0 then "-" + NatToString(-i) else NatToString(i)
  }

  /** `int(s)` for a string of decimal digits. */
  function ParseNat(s: string): (n: nat)
    requires AllDigits(s)
    decreases |s|
  {
    if s == [] then 0 else 10 * ParseNat(s[..|s| - 1]) + (s[|s| - 1] as int - '0' as int)
  }

  lemma {:induction false} ParseNatToString(n: nat)
    ensures AllDigits(NatToString(n)) && ParseNat(NatToString(n)) == n
    decreases n
  {
    NatToStringDigits(n);
    if n >= 10 {
      var s := NatToString(n);
      assert s[..|s| - 1] == NatToString(n / 10);
      ParseNatToString(n / 10);
    }
  }

  /** Python's `int(x)` on a float: truncation toward zero. */
  function Trunc(x: real): int {
    if x >= 0.0 then x.Floor else -((-x).Floor)
  }

  /** Python's `math.ceil(x)` */
  function Ceil(x: real): (r: int)
    ensures x <= r as real < x + 1.0
  {
    -((-x).Floor)
  }

  // ---------------------------------------------------------------- ordering

  /** Lexicographic order of code points: Python's `<=` on `str` and SQLite's BINARY collation. */
  predicate LexLe(a: string, b: string)
    decreases |a|
  {
    a == [] || (b != [] && (a[0] < b[0] || (a[0] == b[0] && LexLe(a[1..], b[1..]))))
  }

  lemma {:induction false} LexLeTotal(a: string, b: string)
    ensures LexLe(a, b) || LexLe(b, a)
    decreases |a|
  {
    if a != [] && b != [] && a[0] == b[0] { LexLeTotal(a[1..], b[1..]); }
  }

  lemma {:induction false} LexLeTrans(a: string, b: string, c: string)
    requires LexLe(a, b) && LexLe(b, c)
    ensures LexLe(a, c)
    decreases |a|
  {
    if a != [] && b != [] && c != [] && a[0] == b[0] && b[0] == c[0] {
      LexLeTrans(a[1..], b[1..], c[1..]);
    }
  }

  lemma {:induction false} LexLeAntisym(a: string, b: string)
    requires LexLe(a, b) && LexLe(b, a)
    ensures a == b
    decreases |a|
  {
    if a != [] { LexLeAntisym(a[1..], b[1..]); }
  }

  /** `a < b` on `str`. */
  predicate LexLt(a: string, b: string) {
    LexLe(a, b) && a != b
  }

  predicate StrictlySorted(xs: seq<string>) {
    forall i, j | 0 <= i < j < |xs| :: LexLt(xs[i], xs[j])
  }

  /** `x` put into its place in a strictly sorted list, unless it is there already. */
  function InsertSorted(x: string, xs: seq<string>): (r: seq<string>)
    requires StrictlySorted(xs)
    ensures StrictlySorted(r)
    ensures forall y :: y in r <==> y == x || y in xs
    decreases |xs|
  {
    if xs == [] then [x]
    else if x == xs[0] then xs
    else if LexLe(x, xs[0]) then
      assert forall j | 0 < j < |xs| :: LexLt(x, xs[j]) by {
        forall j | 0 < j < |xs| ensures LexLt(x, xs[j]) {
          LexLeTrans(x, xs[0], xs[j]);
          if x == xs[j] { LexLeAntisym(x, xs[0]); }
        }
      }
      [x] + xs
    else
      var rest := InsertSorted(x, xs[1..]);
      LexLeTotal(x, xs[0]);
      assert forall j | 0 <= j < |rest| :: LexLt(xs[0], rest[j]) by {
        forall j | 0 <= j < |rest| ensures LexLt(xs[0], rest[j]) {
          assert rest[j] in rest;
          if rest[j] != x {
            var m :| 0 <= m < |xs[1..]| && xs[1..][m] == rest[j];
            assert xs[m + 1] == rest[j];
          }
        }
      }
      [xs[0]] + rest
  }

  /** `sorted(set(xs))`: the distinct elements of `xs` in increasing order. */
  function SortedSet(xs: seq<string>): (r: seq<string>)
    ensures StrictlySorted(r)
    ensures forall y :: y in r <==> y in xs
  {
    if xs == [] then []
    else
      var init := xs[..|xs| - 1];
      assert xs == init + [xs[|xs| - 1]];
      InsertSorted(xs[|xs| - 1], SortedSet(init))
  }
}
