/**
 * The fixed regular expressions of the pipeline, written out as scanners:
 * enrolment counts (`n = 240`), trial registry ids (`NCT01234567`) and numbers
 * (`12`, `3.5`, `40%`). Each scanner follows the expression's backtracking
 * behaviour on the characters it can meet.
 */
module Patterns {
  import opened Wrappers
  import opened Strings

  /** End of the run of whitespace starting at `j` (`\s*`). */
  function SkipSpaces(s: string, j: nat): (k: nat)
    requires j <= |s|
    ensures j <= k <= |s|
    ensures forall m | j <= m < k :: IsSpace(s[m])
    ensures k < |s| ==> !IsSpace(s[k])
    decreases |s| - j
  {
    if j < |s| && IsSpace(s[j]) then SkipSpaces(s, j + 1) else j
  }

  /** End of the run of digits starting at `j` (`\d+`, greedy). */
  function SkipDigits(s: string, j: nat): (k: nat)
    requires j <= |s|
    ensures j <= k <= |s|
    ensures AllDigits(s[j..k])
    ensures k < |s| ==> !IsDigit(s[k])
    decreases |s| - j
  {
    if j < |s| && IsDigit(s[j]) then
      var k := SkipDigits(s, j + 1);
      assert forall m | 1 <= m < k - j :: s[j..k][m] == s[j + 1..k][m - 1];
      k
    else j
  }

  /** `\b` just before position `i` of a match that starts with a word character. */
  predicate BoundaryBefore(s: string, i: nat)
    requires i <= |s|
  {
    i == 0 || !IsWordChar(s[i - 1])
  }

  /** `\b` just after a match ending at `e` whose last character is a word character. */
  predicate BoundaryAfter(s: string, e: nat)
    requires e <= |s|
  {
    e == |s| || !IsWordChar(s[e])
  }

  // ---------------------------------------------------------------- enrolment counts

  /** The labels of `(?:n|enrolled|patients?)\s*=\s*` used by the scorer. */
  const ScoreCountLabels: seq<string> := ["n", "enrolled", "patients", "patient"]

  /** The labels used by the field extractor, which also knows `participants?`. */
  const FieldCountLabels: seq<string> := ["n", "enrolled", "patients", "patient", "participants", "participant"]

  /** `\s*=\s*(\d{2,5})\b` from position `j`: the count, when the rest of the match succeeds. */
  function CountAfter(s: string, j: nat): Option<nat>
    requires j <= |s|
  {
    var a := SkipSpaces(s, j);
    if a < |s| && s[a] == '=' then
      var b := SkipSpaces(s, a + 1);
      var e := SkipDigits(s, b);
      // `\d{2,5}\b` can only end where the digit run ends: a shorter prefix is followed by a digit
      if 2 <= e - b <= 5 && BoundaryAfter(s, e) then Some(ParseNat(s[b..e])) else None
    else None
  }

  /** The first label occurring at `i` whose tail matches. */
  function LabelledCount(s: string, i: nat, labels: seq<string>): Option<nat>
    requires i <= |s|
    decreases |labels|
  {
    if labels == [] then None
    else if OccursAt(s, labels[0], i) && CountAfter(s, i + |labels[0]|).Some? then
      CountAfter(s, i + |labels[0]|)
    else LabelledCount(s, i, labels[1..])
  }

  /** The count matched at position `i`, if the expression matches there. */
  function CountAt(s: string, i: nat, labels: seq<string>): Option<nat>
    requires i <= |s|
  {
    if BoundaryBefore(s, i) then LabelledCount(s, i, labels) else None
  }

  /**
   * `re.findall` of the enrolment pattern from position `i` on. Every position is
   * tried: no match can start inside an earlier one, because inside a label every
   * letter that could start a label follows a letter, and the rest is spaces, `=`
   * and digits.
   */
  function CountsFrom(s: string, i: nat, labels: seq<string>): seq<nat>
    requires i <= |s|
    decreases |s| - i
  {
    if i == |s| then []
    else (match CountAt(s, i, labels) case Some(v) => [v] case None => []) + CountsFrom(s, i + 1, labels)
  }

  function Counts(s: string, labels: seq<string>): seq<nat> {
    CountsFrom(s, 0, labels)
  }

  /** A value is found exactly when the pattern matches at some position with that value. */
  lemma {:induction false} CountsFromMembers(s: string, i: nat, labels: seq<string>, v: nat)
    requires i <= |s|
    ensures v in CountsFrom(s, i, labels) <==> exists j | i <= j < |s| :: CountAt(s, j, labels) == Some(v)
    decreases |s| - i
  {
    if i < |s| {
      var head: seq<nat> := match CountAt(s, i, labels) case Some(w) => [w] case None => [];
      var rest := CountsFrom(s, i + 1, labels);
      assert CountsFrom(s, i, labels) == head + rest;
      assert v in head <==> CountAt(s, i, labels) == Some(v);
      CountsFromMembers(s, i + 1, labels, v);
      if v in rest {
        var j :| i + 1 <= j < |s| && CountAt(s, j, labels) == Some(v);
        assert i <= j < |s|;
      }
      if exists j | i <= j < |s| :: CountAt(s, j, labels) == Some(v) {
        var j :| i <= j < |s| && CountAt(s, j, labels) == Some(v);
        if j > i { assert v in rest; }
      }
    }
  }

  // ---------------------------------------------------------------- trial ids

  /** `\bNCT\d{8}\b` matches at `i`. */
  predicate NctAt(s: string, i: nat) {
    i + 11 <= |s| && BoundaryBefore(s, i) && OccursAt(s, "NCT", i)
    && AllDigits(s[i + 3..i + 11]) && BoundaryAfter(s, i + 11)
  }

  /** Position of the first trial id at or after `from`. */
  function FirstNct(s: string, from: nat): (k: Option<nat>)
    ensures k.Some? ==> from <= k.value && NctAt(s, k.value)
    ensures forall j | from <= j && (k.None? || j < k.value) :: !NctAt(s, j)
    decreases |s| - from
  {
    if from + 11 > |s| then None
    else if NctAt(s, from) then Some(from)
    else FirstNct(s, from + 1)
  }

  // ---------------------------------------------------------------- numbers

  /**
   * End of the match of `\b\d+(?:\.\d+)?%?\b` starting at `i`, if there is one. Backtracking
   * is spelled out: the `%` is kept only when a word character follows it, the decimal part
   * only when it ends at a boundary.
   */
  function NumberAt(s: string, i: nat): (e: Option<nat>)
    requires i <= |s|
    ensures e.Some? ==> i < e.value <= |s|
  {
    if i == |s| || !IsDigit(s[i]) || !BoundaryBefore(s, i) then None
    else
      var e := SkipDigits(s, i);
      var f := if e + 1 < |s| && s[e] == '.' && IsDigit(s[e + 1]) then SkipDigits(s, e + 1) else e;
      if f > e && f + 1 < |s| && s[f] == '%' && IsWordChar(s[f + 1]) then Some(f + 1)
      else if f > e && BoundaryAfter(s, f) then Some(f)
      else if e + 1 < |s| && s[e] == '%' && IsWordChar(s[e + 1]) then Some(e + 1)
      else if BoundaryAfter(s, e) then Some(e)
      else None
  }

  /** `re.findall(r"\b\d+(?:\.\d+)?%?\b", s)` from position `i`: scanning resumes after each match. */
  function NumbersFrom(s: string, i: nat): (r: seq<string>)
    requires i <= |s|
    ensures forall k | 0 <= k < |r| :: r[k] != [] && IsDigit(r[k][0])
    decreases |s| - i
  {
    if i == |s| then []
    else match NumberAt(s, i)
      case Some(e) => [s[i..e]] + NumbersFrom(s, e)
      case None => NumbersFrom(s, i + 1)
  }

  /** The set of numbers written in `s`, as `_extract_numbers` collects them. */
  function NumberSet(s: string): set<string> {
    var ns := NumbersFrom(s, 0);
    set k | 0 <= k < |ns| :: ns[k]
  }

  /** `re.search(r"\b\d+(?:\.\d+)?%?\b", s)` */
  predicate HasNumber(s: string) {
    exists i | 0 <= i <= |s| :: NumberAt(s, i).Some?
  }

  /**
   * A number is present exactly when some run of digits starts at a word boundary and
   * is not followed by a word character: the decimal and percent alternatives never
   * rescue a run that ends in a letter.
   */
  lemma HasNumberIff(s: string)
    ensures HasNumber(s) <==>
      exists i | 0 <= i < |s| :: IsDigit(s[i]) && BoundaryBefore(s, i) && BoundaryAfter(s, SkipDigits(s, i))
  {
    if HasNumber(s) {
      var i :| 0 <= i <= |s| && NumberAt(s, i).Some?;
      var e := SkipDigits(s, i);
      assert i < |s| && IsDigit(s[i]) && BoundaryBefore(s, i) && BoundaryAfter(s, e);
    }
    if exists i | 0 <= i < |s| :: IsDigit(s[i]) && BoundaryBefore(s, i) && BoundaryAfter(s, SkipDigits(s, i)) {
      var i :| 0 <= i < |s| && IsDigit(s[i]) && BoundaryBefore(s, i) && BoundaryAfter(s, SkipDigits(s, i));
      assert NumberAt(s, i).Some?;
    }
  }

  /** Scanning from `i` finds a number whenever one can start at or after `i`. */
  lemma {:induction false} NumbersFromFinds(s: string, i: nat, j: nat)
    requires i <= j < |s| && NumberAt(s, j).Some?
    ensures NumbersFrom(s, i) != []
    decreases |s| - i
  {
    if NumberAt(s, i).None? {
      NumbersFromFinds(s, i + 1, j);
    }
  }

  lemma HasNumberNonEmptySet(s: string)
    requires HasNumber(s)
    ensures NumberSet(s) != {}
  {
    var i :| 0 <= i <= |s| && NumberAt(s, i).Some?;
    NumbersFromFinds(s, 0, i);
    assert NumbersFrom(s, 0)[0] in NumberSet(s);
  }
}
