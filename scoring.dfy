/**
 * The rule-based scorer. Every rule that fires adds its points to the score and
 * appends one explanation line; the two run in lock-step, so the explanation
 * accounts for the whole score. A rule is modelled as a `Hit` (points, whether
 * the line carries an explicit `+`, reason) and the explanation line is its text.
 */
module Scoring {
  import opened Wrappers
  import opened Strings
  import opened Records
  import Patterns

  // ---------------------------------------------------------------- weights

  const DefaultWeights: map<string, real> := map[
    "phase_iii" := 6.0, "randomized" := 5.0, "meta_analysis" := 4.0, "phase_ii" := 3.0,
    "overall_survival" := 2.0, "progression_free_survival" := 2.0, "sample_size" := 1.0,
    "major_journal" := 1.0, "citations_multiplier" := 1.0, "preclinical_penalty" := -4.0,
    "case_report_penalty" := -3.0, "global_penalty" := -2.0, "include_term" := 1.0,
    "exclude_term" := -1.0, "query_exact_phrase" := 8.0, "query_concept" := 3.0,
    "query_keyword" := 1.0, "query_coverage" := 2.0
  ]

  /** An override value: one that `float()` converts, or one it rejects. */
  datatype OverrideValue = Number(x: real) | NotANumber

  /** The value the last numeric override of `k` gives it, if any. */
  function OverrideFor(overrides: seq<(string, OverrideValue)>, k: string): Option<real>
    decreases |overrides|
  {
    if overrides == [] then None
    else
      var last := overrides[|overrides| - 1];
      if last.0 == k && last.1.Number? then Some(last.1.x)
      else OverrideFor(overrides[..|overrides| - 1], k)
  }

  /** The weights in force: the defaults, each replaced by its numeric override if there is one. */
  function Weights(overrides: seq<(string, OverrideValue)>): (w: map<string, real>)
    ensures w.Keys == DefaultWeights.Keys
  {
    map k | k in DefaultWeights :: OverrideFor(overrides, k).UnwrapOr(DefaultWeights[k])
  }

  lemma WeightsWithoutOverrides()
    ensures Weights([]) == DefaultWeights
  {
  }

  /**
   * One more override entry: an unknown key or a value `float()` rejects changes nothing,
   * a known key with a number replaces exactly that weight.
   */
  lemma WeightsOverrideStep(overrides: seq<(string, OverrideValue)>, k: string, v: OverrideValue)
    ensures Weights(overrides + [(k, v)]) ==
      if k in DefaultWeights && v.Number? then Weights(overrides)[k := v.x] else Weights(overrides)
  {
    var ov := overrides + [(k, v)];
    assert ov[..|ov| - 1] == overrides;
  }

  /** `_resolved_weights` */
  method ResolveWeights(overrides: seq<(string, OverrideValue)>) returns (w: map<string, real>)
    ensures w == Weights(overrides)
  {
    w := DefaultWeights;
    WeightsWithoutOverrides();
    var i := 0;
    while i < |overrides|
      invariant 0 <= i <= |overrides|
      invariant w == Weights(overrides[..i])
    {
      var (k, v) := overrides[i];
      WeightsOverrideStep(overrides[..i], k, v);
      assert overrides[..i + 1] == overrides[..i] + [(k, v)];
      if k in w && v.Number? {
        w := w[k := v.x];
      }
      i := i + 1;
    }
    assert overrides[..i] == overrides;
  }

  /** A weight; every key the scorer asks for is present, since the keys are the defaults'. */
  function Weight(w: map<string, real>, key: string): real {
    if key in w then w[key] else 0.0
  }

  /** `int(w[key])` */
  function Pt(w: map<string, real>, key: string): int {
    Trunc(Weight(w, key))
  }

  // ---------------------------------------------------------------- hits and explanations

  datatype Hit = Hit(points: int, plus: bool, reason: string)

  /** The explanation line of a hit: `f"+{points} {reason}"` or `f"{points} {reason}"`. */
  function Text(h: Hit): string {
    (if h.plus then "+" else "") + IntToString(h.points) + " " + h.reason
  }

  function Total(hs: seq<Hit>): int
    decreases |hs|
  {
    if hs == [] then 0 else Total(hs[..|hs| - 1]) + hs[|hs| - 1].points
  }

  function Texts(hs: seq<Hit>): (r: seq<string>)
    ensures |r| == |hs|
    decreases |hs|
  {
    if hs == [] then [] else Texts(hs[..|hs| - 1]) + [Text(hs[|hs| - 1])]
  }

  /** One more hit adds its points. */
  lemma TotalSnoc(hs: seq<Hit>, h: Hit)
    ensures Total(hs + [h]) == Total(hs) + h.points
  {
    assert (hs + [h])[..|hs|] == hs;
  }

  /** One more hit adds its line. */
  lemma TextsSnoc(hs: seq<Hit>, h: Hit)
    ensures Texts(hs + [h]) == Texts(hs) + [Text(h)]
  {
    assert (hs + [h])[..|hs|] == hs;
  }

  lemma {:induction false} TotalConcat(a: seq<Hit>, b: seq<Hit>)
    ensures Total(a + b) == Total(a) + Total(b)
    decreases |b|
  {
    if b != [] {
      var ab := a + b;
      assert ab[..|ab| - 1] == a + b[..|b| - 1];
      assert ab[|ab| - 1] == b[|b| - 1];
      TotalConcat(a, b[..|b| - 1]);
    } else {
      assert a + b == a;
    }
  }

  lemma {:induction false} TextsMember(hs: seq<Hit>, h: Hit)
    requires h in hs
    ensures Text(h) in Texts(hs)
    decreases |hs|
  {
    if hs[|hs| - 1] != h {
      assert h in hs[..|hs| - 1];
      TextsMember(hs[..|hs| - 1], h);
    }
  }

  /** The number a line of the explanation shows: an optional `+`, an optional `-`, digits. */
  function ShownPoints(line: string): int {
    var a := if line != [] && line[0] == '+' then 1 else 0;
    var neg := a < |line| && line[a] == '-';
    var b := if neg then a + 1 else a;
    var e := Patterns.SkipDigits(line, b);
    var n: int := ParseNat(line[b..e]);
    if neg then -n else n
  }

  function ShownTotal(lines: seq<string>): int
    decreases |lines|
  {
    if lines == [] then 0 else ShownTotal(lines[..|lines| - 1]) + ShownPoints(lines[|lines| - 1])
  }

  lemma {:induction false} SkipDigitsOver(s: string, j: nat, k: nat)
    requires j <= k < |s| && AllDigits(s[j..k]) && !IsDigit(s[k])
    ensures Patterns.SkipDigits(s, j) == k
    decreases k - j
  {
    if j < k {
      assert s[j] == s[j..k][0];
      assert s[j + 1..k] == s[j..k][1..];
      SkipDigitsOver(s, j + 1, k);
    }
  }

  /** Reading a line laid out as sign marks, digits, then a space and anything. */
  lemma ReadShownPoints(p: string, sign: string, d: string, rest: string)
    requires p == "" || p == "+"
    requires sign == "" || sign == "-"
    requires d != [] && AllDigits(d)
    requires rest != [] && rest[0] == ' '
    ensures ShownPoints(p + sign + d + rest) == if sign == "-" then 0 - ParseNat(d) else ParseNat(d) as int
  {
    var line := p + sign + d + rest;
    var a := |p|;
    var b := |p| + |sign|;
    assert line[b..b + |d|] == d;
    assert line[b + |d|] == ' ';
    assert line[b] == d[0];
    if p == "" {
      assert line == sign + d + rest;
      if sign == "" { assert line[0] == d[0]; } else { assert line[0] == '-'; }
    } else {
      assert line[0] == '+';
    }
    if sign == "" { assert line[a] == d[0]; } else { assert line[a] == '-'; }
    SkipDigitsOver(line, b, b + |d|);
  }

  /** Reading back the number of an explanation line gives the points of its hit. */
  lemma ShownPointsOfText(h: Hit)
    ensures ShownPoints(Text(h)) == h.points
  {
    var n: nat := if h.points < 0 then -h.points else h.points;
    var sign := if h.points < 0 then "-" else "";
    var d := NatToString(n);
    NatToStringDigits(n);
    var p := if h.plus then "+" else "";
    assert IntToString(h.points) == sign + d;
    assert Text(h) == p + sign + d + (" " + h.reason);
    ReadShownPoints(p, sign, d, " " + h.reason);
    ParseNatToString(n);
  }

  /** The points read back from the explanation lines add up to the total. */
  lemma {:induction false} ShownTotalOfTexts(hs: seq<Hit>)
    ensures ShownTotal(Texts(hs)) == Total(hs)
    decreases |hs|
  {
    if hs != [] {
      var t := Texts(hs);
      assert t[..|t| - 1] == Texts(hs[..|hs| - 1]);
      ShownTotalOfTexts(hs[..|hs| - 1]);
      ShownPointsOfText(hs[|hs| - 1]);
    }
  }

  /** How many hits carry `reason`. */
  function Occurrences(hs: seq<Hit>, reason: string): nat
    decreases |hs|
  {
    if hs == [] then 0 else (if hs[0].reason == reason then 1 else 0) + Occurrences(hs[1..], reason)
  }

  // ---------------------------------------------------------------- term tests

  /** `_has_any`: some term, lowered, occurs in the lowered text. */
  predicate HasAny(text: string, terms: seq<string>) {
    exists k | 0 <= k < |terms| :: Contains(Lower(text), Lower(terms[k]))
  }

  /** `_contains_term`: a term of `[a-z0-9]+` must match on word boundaries, any other a substring. */
  predicate ContainsTerm(blob: string, term: string) {
    var t := Lower(Strip(term));
    t != "" && if IsLowerAlnumWord(t) then ContainsWord(blob, t) else Contains(blob, t)
  }

  /** `_sample_size_boost`: some enrolment count of the lowered text is at least 200. */
  predicate SampleSizeBoost(text: string) {
    var counts := Patterns.Counts(Lower(text), Patterns.ScoreCountLabels);
    exists k | 0 <= k < |counts| :: counts[k] >= 200
  }

  /** The sample-size rule fires exactly when a labelled count of at least 200 occurs somewhere. */
  lemma SampleSizeBoostIff(text: string)
    ensures SampleSizeBoost(text) <==>
      exists j | 0 <= j < |text| ::
        Patterns.CountAt(Lower(text), j, Patterns.ScoreCountLabels).Some?
        && Patterns.CountAt(Lower(text), j, Patterns.ScoreCountLabels).value >= 200
  {
    var s := Lower(text);
    var reasons := Patterns.ScoreCountLabels;
    var counts := Patterns.Counts(s, reasons);
    if SampleSizeBoost(text) {
      var k :| 0 <= k < |counts| && counts[k] >= 200;
      Patterns.CountsFromMembers(s, 0, reasons, counts[k]);
      var j :| 0 <= j < |s| && Patterns.CountAt(s, j, reasons) == Some(counts[k]);
      assert Patterns.CountAt(s, j, reasons).value >= 200;
    }
    if exists j | 0 <= j < |text| :: Patterns.CountAt(s, j, reasons).Some? && Patterns.CountAt(s, j, reasons).value >= 200 {
      var j :| 0 <= j < |text| && Patterns.CountAt(s, j, reasons).Some? && Patterns.CountAt(s, j, reasons).value >= 200;
      var v := Patterns.CountAt(s, j, reasons).value;
      Patterns.CountsFromMembers(s, 0, reasons, v);
      var k :| 0 <= k < |counts| && counts[k] == v;
    }
  }

  // ---------------------------------------------------------------- rules that fire once

  /** A rule that fires once when one of its terms occurs: a boost or a penalty. */
  datatype Rule = Rule(points: int, plus: bool, terms: seq<string>, reason: string)

  /** A rule fires when it has terms and one of them occurs. */
  predicate Fires(blob: string, r: Rule) {
    r.terms != [] && HasAny(blob, r.terms)
  }

  /** The hits of `rules`, in order. */
  function RuleHits(blob: string, rules: seq<Rule>): seq<Hit>
    decreases |rules|
  {
    if rules == [] then []
    else
      var r := rules[0];
      (if Fires(blob, r) then [Hit(r.points, r.plus, r.reason)] else [])
      + RuleHits(blob, rules[1..])
  }

  /** `BOOSTS` under weights `w`: each explains itself by its first term. */
  function BoostRules(w: map<string, real>): seq<Rule> {
    [
      Rule(Pt(w, "phase_iii"), true, ["phase iii", "phase 3"], "phase iii"),
      Rule(Pt(w, "randomized"), true, ["randomized", "rct"], "randomized"),
      Rule(Pt(w, "meta_analysis"), true, ["meta-analysis", "systematic review"], "meta-analysis"),
      Rule(Pt(w, "phase_ii"), true, ["phase ii", "phase 2"], "phase ii")
    ]
  }

  /** The three penalty categories; their explanation lines carry no explicit sign. */
  function PenaltyRules(w: map<string, real>, globalTerms: seq<string>): seq<Rule> {
    [
      Rule(Pt(w, "preclinical_penalty"), false, ["mouse", "murine", "cell line", "in vitro"], "preclinical signal"),
      Rule(Pt(w, "case_report_penalty"), false, ["case report"], "case report"),
      Rule(Pt(w, "global_penalty"), false, globalTerms, "global penalty")
    ]
  }

  predicate DistinctLabels(rules: seq<Rule>) {
    forall i, j | 0 <= i < j < |rules| :: rules[i].reason != rules[j].reason
  }

  lemma {:induction false} RuleHitsWithoutLabel(blob: string, rules: seq<Rule>, reason: string)
    requires forall i | 0 <= i < |rules| :: rules[i].reason != reason
    ensures Occurrences(RuleHits(blob, rules), reason) == 0
    decreases |rules|
  {
    if rules != [] {
      RuleHitsWithoutLabel(blob, rules[1..], reason);
      var head := if Fires(blob, rules[0]) then [Hit(rules[0].points, rules[0].plus, rules[0].reason)] else [];
      OccurrencesConcat(head, RuleHits(blob, rules[1..]), reason);
    }
  }

  lemma {:induction false} OccurrencesConcat(a: seq<Hit>, b: seq<Hit>, reason: string)
    ensures Occurrences(a + b, reason) == Occurrences(a, reason) + Occurrences(b, reason)
    decreases |a|
  {
    if a != [] {
      assert (a + b)[1..] == a[1..] + b;
      OccurrencesConcat(a[1..], b, reason);
    } else {
      assert a + b == b;
    }
  }

  /**
   * With distinct reasons, rule `k` explains itself exactly once when it fires and never
   * otherwise, and its hit carries the rule's points.
   */
  lemma {:induction false} RuleFiresOnce(blob: string, rules: seq<Rule>, k: nat)
    requires DistinctLabels(rules) && k < |rules|
    ensures Occurrences(RuleHits(blob, rules), rules[k].reason) ==
      if Fires(blob, rules[k]) then 1 else 0
    ensures Fires(blob, rules[k]) ==>
      Hit(rules[k].points, rules[k].plus, rules[k].reason) in RuleHits(blob, rules)
    decreases k
  {
    var r := rules[0];
    var head := if Fires(blob, r) then [Hit(r.points, r.plus, r.reason)] else [];
    var rest := RuleHits(blob, rules[1..]);
    assert RuleHits(blob, rules) == head + rest;
    OccurrencesConcat(head, rest, rules[k].reason);
    if k == 0 {
      RuleHitsWithoutLabel(blob, rules[1..], r.reason);
    } else {
      RuleFiresOnce(blob, rules[1..], k - 1);
    }
  }

  /** Each boost and each penalty category fires at most once. */
  lemma BoostsAndPenaltiesFireOnce(blob: string, w: map<string, real>, globalTerms: seq<string>, k: nat)
    requires k < 4
    ensures Occurrences(RuleHits(blob, BoostRules(w)), BoostRules(w)[k].reason) <= 1
    ensures k < 3 ==> Occurrences(RuleHits(blob, PenaltyRules(w, globalTerms)), PenaltyRules(w, globalTerms)[k].reason) <= 1
  {
    RuleFiresOnce(blob, BoostRules(w), k);
    if k < 3 {
      RuleFiresOnce(blob, PenaltyRules(w, globalTerms), k);
    }
  }

  /**
   * "phase ii" is a prefix of "phase iii": text that earns the phase III boost also
   * earns the phase II boost.
   */
  lemma PhaseThreeFiresBoth(blob: string, w: map<string, real>)
    requires Contains(Lower(blob), "phase iii")
    ensures Fires(blob, BoostRules(w)[0]) && Fires(blob, BoostRules(w)[3])
  {
    var rules := BoostRules(w);
    assert Lower("phase iii") == "phase iii";
    assert Lower("phase ii") == "phase ii";
    var i :| 0 <= i <= |Lower(blob)| && OccursAt(Lower(blob), "phase iii", i);
    ContainsPrefix("phase iii", 8);
    assert "phase iii"[..8] == "phase ii";
    ContainsInfix(Lower(blob), "phase iii", "phase ii", i);
    assert rules[0].terms[0] == "phase iii" && rules[3].terms[0] == "phase ii";
    assert Contains(Lower(blob), Lower(rules[0].terms[0]));
    assert Contains(Lower(blob), Lower(rules[3].terms[0]));
  }

  /** Both phase boosts appear among the hits of text that mentions phase III. */
  lemma PhaseThreeAlsoPhaseTwo(blob: string, w: map<string, real>)
    requires Contains(Lower(blob), "phase iii")
    ensures Hit(Pt(w, "phase_iii"), true, "phase iii") in RuleHits(blob, BoostRules(w))
    ensures Hit(Pt(w, "phase_ii"), true, "phase ii") in RuleHits(blob, BoostRules(w))
  {
    PhaseThreeFiresBoth(blob, w);
    RuleFiresOnce(blob, BoostRules(w), 0);
    RuleFiresOnce(blob, BoostRules(w), 3);
  }

  // ---------------------------------------------------------------- include / exclude terms

  /** `term.lower() in blob` */
  predicate Found(blob: string, term: string) {
    Contains(blob, Lower(term))
  }

  /** One hit per list entry found in the blob, labelled with the entry as written. */
  function TermHits(blob: string, terms: seq<string>, points: int, plus: bool, prefix: string): seq<Hit>
    decreases |terms|
  {
    if terms == [] then []
    else
      var t := terms[|terms| - 1];
      TermHits(blob, terms[..|terms| - 1], points, plus, prefix)
      + (if Found(blob, t) then [Hit(points, plus, prefix + t)] else [])
  }

  /** A term listed twice counts twice. */
  lemma RepeatedTermCountsTwice(blob: string, t: string, points: int, plus: bool, prefix: string)
    requires Found(blob, t)
    ensures TermHits(blob, [t, t], points, plus, prefix) == [Hit(points, plus, prefix + t), Hit(points, plus, prefix + t)]
    ensures Total(TermHits(blob, [t, t], points, plus, prefix)) == 2 * points
  {
    var h := Hit(points, plus, prefix + t);
    assert [t, t][..1] == [t];
    assert [t][..0] == [];
    assert TermHits(blob, [t], points, plus, prefix) == [h];
    TotalSnoc([h], h);
    TotalSnoc([], h);
  }

  /** Hits of a list are the hits of its parts, one per entry found. */
  lemma {:induction false} TermHitsConcat(blob: string, a: seq<string>, b: seq<string>, points: int, plus: bool, prefix: string)
    ensures TermHits(blob, a + b, points, plus, prefix) ==
      TermHits(blob, a, points, plus, prefix) + TermHits(blob, b, points, plus, prefix)
    decreases |b|
  {
    if b != [] {
      var ab := a + b;
      assert ab[..|ab| - 1] == a + b[..|b| - 1];
      assert ab[|ab| - 1] == b[|b| - 1];
      TermHitsConcat(blob, a, b[..|b| - 1], points, plus, prefix);
    } else {
      assert a + b == a;
    }
  }

  // ---------------------------------------------------------------- query relevance

  /** `str(t).strip().lower()` of every entry whose stripped form is not empty. */
  function CleanTerms(ts: seq<string>): (r: seq<string>)
    ensures forall k | 0 <= k < |r| :: r[k] != ""
    decreases |ts|
  {
    if ts == [] then []
    else (if Strip(ts[0]) != "" then [Lower(Strip(ts[0]))] else []) + CleanTerms(ts[1..])
  }

  predicate GroupHit(blob: string, group: seq<string>) {
    var ts := CleanTerms(group);
    ts != [] && exists k | 0 <= k < |ts| :: ContainsTerm(blob, ts[k])
  }

  /** The number of concept groups (entries that are lists) with a term in the blob. */
  function ConceptHitCount(blob: string, concepts: seq<ConceptEntry>): nat
    decreases |concepts|
  {
    if concepts == [] then 0
    else
      var last := concepts[|concepts| - 1];
      ConceptHitCount(blob, concepts[..|concepts| - 1])
      + (if last.Group? && GroupHit(blob, last.terms) then 1 else 0)
  }

  function KeywordMatches(blob: string, keywords: seq<string>): (r: seq<string>)
    ensures forall k | 0 <= k < |r| :: r[k] in keywords && ContainsTerm(blob, r[k])
    ensures forall k | 0 <= k < |keywords| && ContainsTerm(blob, keywords[k]) :: keywords[k] in r
    decreases |keywords|
  {
    if keywords == [] then []
    else (if ContainsTerm(blob, keywords[0]) then [keywords[0]] else []) + KeywordMatches(blob, keywords[1..])
  }

  /** `len(set(xs))` */
  function Unique(xs: seq<string>): nat {
    |set x | x in xs|
  }

  /** The query text: `raw_query`, else `query_text`, stripped and lowered. */
  function RawQuery(q: QueryContext): string {
    Lower(Strip(if Truthy(q.rawQuery) then q.rawQuery.value else OrEmpty(q.queryText)))
  }

  lemma UniqueEmpty(xs: seq<string>)
    ensures Unique(xs) == 0 <==> xs == []
  {
    var distinct := set x | x in xs;
    if xs != [] {
      assert xs[0] in distinct;
      assert distinct != {};
    } else {
      assert distinct == {};
    }
  }

  /** No keyword of the list occurs in the blob. */
  predicate NoneFound(blob: string, keywords: seq<string>) {
    forall k | 0 <= k < |keywords| :: !ContainsTerm(blob, keywords[k])
  }

  lemma KeywordMatchesEmpty(blob: string, keywords: seq<string>)
    ensures KeywordMatches(blob, keywords) == [] <==> NoneFound(blob, keywords)
  {
    var r := KeywordMatches(blob, keywords);
    if r != [] {
      assert r[0] in keywords && ContainsTerm(blob, r[0]);
      var k :| 0 <= k < |keywords| && keywords[k] == r[0];
      assert ContainsTerm(blob, keywords[k]);
    }
  }

  /** The number of distinct keywords found, capped at 6; zero exactly when none is found. */
  function KeywordCounted(blob: string, q: QueryContext): (c: nat)
    ensures c <= 6
    ensures c == 0 <==> NoneFound(blob, CleanTerms(q.keywords))
  {
    var hits := KeywordMatches(blob, CleanTerms(q.keywords));
    UniqueEmpty(hits);
    KeywordMatchesEmpty(blob, CleanTerms(q.keywords));
    var u := Unique(hits);
    if u < 6 then u else 6
  }

  /** `len(set(hits)) / unique_kw >= 0.5`, in integers. */
  predicate AtLeastHalf(found: nat, total: nat) {
    2 * found >= total
  }

  /** The integer test agrees with the source's floating-point ratio. */
  lemma AtLeastHalfIsRatio(found: nat, total: nat)
    requires total > 0
    ensures AtLeastHalf(found, total) <==> (found as real) / (total as real) >= 0.5
  {
    var f := found as real;
    var t := total as real;
    assert f == (f / t) * t;
  }

  /** Half or more of at least three distinct keywords are found. */
  predicate Coverage(blob: string, q: QueryContext) {
    var keywords := CleanTerms(q.keywords);
    Unique(keywords) >= 3 && AtLeastHalf(Unique(KeywordMatches(blob, keywords)), Unique(keywords))
  }

  /** The exact-phrase rule: a query of at least 12 characters found in the blob. */
  predicate PhraseMatch(blob: string, raw: string) {
    raw != "" && |raw| >= 12 && Contains(blob, raw)
  }

  function PhraseHits(blob: string, q: QueryContext, w: map<string, real>): seq<Hit> {
    if PhraseMatch(blob, RawQuery(q)) then [Hit(Pt(w, "query_exact_phrase"), true, "query phrase match")] else []
  }

  function ConceptHits(blob: string, q: QueryContext, w: map<string, real>): seq<Hit> {
    var n := ConceptHitCount(blob, q.concepts);
    if n > 0 then [Hit(Pt(w, "query_concept") * n, true, "query concept match (" + NatToString(n) + ")")] else []
  }

  function KeywordHits(blob: string, q: QueryContext, w: map<string, real>): seq<Hit> {
    var c := KeywordCounted(blob, q);
    if c > 0 then
      [Hit(Pt(w, "query_keyword") * c, true, "query keyword match (" + NatToString(c) + ")")]
      + (if Coverage(blob, q) then [Hit(Pt(w, "query_coverage"), true, "query coverage")] else [])
    else []
  }

  /** The query rules in order: exact phrase, concepts, keywords, coverage. */
  function QueryHits(blob: string, ctx: Option<QueryContext>, w: map<string, real>): seq<Hit> {
    match ctx
    case None => []
    case Some(q) => PhraseHits(blob, q, w) + ConceptHits(blob, q, w) + KeywordHits(blob, q, w)
  }

  /** The loop counting the concept groups with a term in the blob. */
  method CountConceptHits(blob: string, concepts: seq<ConceptEntry>) returns (n: nat)
    ensures n == ConceptHitCount(blob, concepts)
  {
    n := 0;
    var i := 0;
    while i < |concepts|
      invariant 0 <= i <= |concepts|
      invariant n == ConceptHitCount(blob, concepts[..i])
    {
      assert concepts[..i + 1][..i] == concepts[..i];
      if concepts[i].Group? && GroupHit(blob, concepts[i].terms) {
        n := n + 1;
      }
      i := i + 1;
    }
    assert concepts[..i] == concepts;
  }

  /** The exact-phrase step of `_query_relevance_boost`. */
  method PhraseBoost(blob: string, q: QueryContext, w: map<string, real>) returns (score: int, hits: seq<Hit>)
    ensures hits == PhraseHits(blob, q, w) && score == Total(hits)
  {
    score, hits := 0, [];
    var raw := RawQuery(q);
    if PhraseMatch(blob, raw) {
      var h := Hit(Pt(w, "query_exact_phrase"), true, "query phrase match");
      TotalSnoc(hits, h);
      score, hits := score + h.points, hits + [h];
    }
  }

  /** The concept step of `_query_relevance_boost`. */
  method ConceptBoost(blob: string, q: QueryContext, w: map<string, real>) returns (score: int, hits: seq<Hit>)
    ensures hits == ConceptHits(blob, q, w) && score == Total(hits)
  {
    score, hits := 0, [];
    var n := CountConceptHits(blob, q.concepts);
    if n > 0 {
      var h := Hit(Pt(w, "query_concept") * n, true, "query concept match (" + NatToString(n) + ")");
      TotalSnoc(hits, h);
      score, hits := score + h.points, hits + [h];
    }
  }

  /** The keyword and coverage steps of `_query_relevance_boost`. */
  method KeywordBoost(blob: string, q: QueryContext, w: map<string, real>) returns (score: int, hits: seq<Hit>)
    ensures hits == KeywordHits(blob, q, w) && score == Total(hits)
  {
    score, hits := 0, [];
    var counted := KeywordCounted(blob, q);
    if counted > 0 {
      var h := Hit(Pt(w, "query_keyword") * counted, true, "query keyword match (" + NatToString(counted) + ")");
      TotalSnoc(hits, h);
      score, hits := score + h.points, hits + [h];
      if Coverage(blob, q) {
        var h2 := Hit(Pt(w, "query_coverage"), true, "query coverage");
        TotalSnoc(hits, h2);
        score, hits := score + h2.points, hits + [h2];
      }
    }
  }

  /** `_query_relevance_boost`: phrase, concepts, keywords, coverage, in that order. */
  method QueryRelevanceBoost(blob: string, ctx: Option<QueryContext>, w: map<string, real>)
    returns (score: int, hits: seq<Hit>)
    ensures hits == QueryHits(blob, ctx, w) && score == Total(hits)
  {
    if ctx.None? {
      return 0, [];
    }
    var q := ctx.value;
    var s1, h1 := PhraseBoost(blob, q, w);
    var s2, h2 := ConceptBoost(blob, q, w);
    var s3, h3 := KeywordBoost(blob, q, w);
    TotalConcat(h1, h2);
    TotalConcat(h1 + h2, h3);
    score, hits := s1 + s2 + s3, h1 + h2 + h3;
  }

  lemma PhraseHitsShape(blob: string, q: QueryContext, w: map<string, real>)
    ensures |PhraseHits(blob, q, w)| <= 1
    ensures forall h | h in PhraseHits(blob, q, w) ::
      h.reason == "query phrase match" && PhraseMatch(blob, RawQuery(q))
  {
  }

  lemma ConceptHitsShape(blob: string, q: QueryContext, w: map<string, real>)
    ensures |ConceptHits(blob, q, w)| <= 1
    ensures forall h | h in ConceptHits(blob, q, w) ::
      h.reason != "query phrase match" && h.reason != "query coverage"
  {
    var n := ConceptHitCount(blob, q.concepts);
    var reason := "query concept match (" + NatToString(n) + ")";
    NatToStringDigits(n);
    assert |reason| > |"query phrase match"| > |"query coverage"|;
  }

  lemma KeywordHitsShape(blob: string, q: QueryContext, w: map<string, real>)
    ensures |KeywordHits(blob, q, w)| <= 2
    ensures forall h | h in KeywordHits(blob, q, w) :: h.reason != "query phrase match"
    ensures forall h | h in KeywordHits(blob, q, w) && h.reason == "query coverage" :: Coverage(blob, q)
  {
    var c := KeywordCounted(blob, q);
    var hs := KeywordHits(blob, q, w);
    if c > 0 {
      var reason := "query keyword match (" + NatToString(c) + ")";
      NatToStringDigits(c);
      assert |reason| > |"query phrase match"| > |"query coverage"|;
      var h := Hit(Pt(w, "query_keyword") * c, true, reason);
      if Coverage(blob, q) {
        assert hs == [h, Hit(Pt(w, "query_coverage"), true, "query coverage")];
      } else {
        assert hs == [h];
      }
    } else {
      assert hs == [];
    }
  }

  /**
   * No context, no boost. The phrase boost needs a query of at least 12 characters found
   * in the blob; the coverage boost needs at least three distinct keywords, at least
   * half of them found. At most four lines are added.
   */
  lemma QueryBoostShape(blob: string, ctx: Option<QueryContext>, w: map<string, real>)
    ensures ctx.None? ==> QueryHits(blob, ctx, w) == []
    ensures |QueryHits(blob, ctx, w)| <= 4
    ensures forall h | h in QueryHits(blob, ctx, w) && h.reason == "query phrase match" ::
      ctx.Some? && |RawQuery(ctx.value)| >= 12 && Contains(blob, RawQuery(ctx.value))
    ensures forall h | h in QueryHits(blob, ctx, w) && h.reason == "query coverage" ::
      ctx.Some? && Unique(CleanTerms(ctx.value.keywords)) >= 3
      && AtLeastHalf(Unique(KeywordMatches(blob, CleanTerms(ctx.value.keywords))), Unique(CleanTerms(ctx.value.keywords)))
  {
    if ctx.Some? {
      var q := ctx.value;
      PhraseHitsShape(blob, q, w);
      ConceptHitsShape(blob, q, w);
      KeywordHitsShape(blob, q, w);
    }
  }

  // ---------------------------------------------------------------- the score

  /** Pack rules as the scorer reads them. */
  datatype PackRules = PackRules(
    majorJournals: seq<string> := [],
    globalPenaltyTerms: seq<string> := [],
    includeTerms: seq<string> := [],
    excludeTerms: seq<string> := [],
    queryContext: Option<QueryContext> := None
  )

  /** The lowered title and text, space-joined. */
  function Blob(item: Item): string {
    Lower(item.title) + " " + Lower(OrEmpty(item.abstractOrText))
  }

  /** The citation bonus; `bonus` stands for `int(log1p(c) * multiplier)`. */
  function CitationHits(citations: Option<int>, w: map<string, real>, bonus: (int, real) -> int): seq<Hit> {
    if citations.Some? && citations.value >= 0 then
      var c := bonus(citations.value, Weight(w, "citations_multiplier"));
      if c > 0 then [Hit(c, true, "citations bonus")] else []
    else []
  }

  /** The one-line hit of a rule that fires on `cond`. */
  function HitIf(cond: bool, h: Hit): seq<Hit> {
    if cond then [h] else []
  }

  /** The overall-survival, progression-free-survival and sample-size rules. */
  function EvidenceHits(blob: string, w: map<string, real>): seq<Hit> {
    HitIf(HasAny(blob, ["overall survival", " os "]), Hit(Pt(w, "overall_survival"), true, "overall survival"))
    + HitIf(HasAny(blob, ["progression-free survival", " pfs "]), Hit(Pt(w, "progression_free_survival"), true, "progression-free survival"))
    + HitIf(SampleSizeBoost(blob), Hit(Pt(w, "sample_size"), true, "sample size >=200"))
  }

  /** The major-journal rule and the citation bonus. */
  function VenueHits(item: Item, rules: PackRules, w: map<string, real>, bonus: (int, real) -> int): seq<Hit> {
    HitIf(HasAny(Lower(OrEmpty(item.venue)), rules.majorJournals), Hit(Pt(w, "major_journal"), true, "major journal"))
    + CitationHits(item.citations, w, bonus)
  }

  /** The penalty categories, then one hit per include term and per exclude term found. */
  function TermRuleHits(blob: string, rules: PackRules, w: map<string, real>): seq<Hit> {
    RuleHits(blob, PenaltyRules(w, rules.globalPenaltyTerms))
    + TermHits(blob, rules.includeTerms, Pt(w, "include_term"), true, "include term: ")
    + TermHits(blob, rules.excludeTerms, Pt(w, "exclude_term"), false, "exclude term: ")
  }

  /** Every rule after the boosts, in evaluation order. */
  function RestHits(item: Item, rules: PackRules, w: map<string, real>, bonus: (int, real) -> int): seq<Hit> {
    var blob := Blob(item);
    EvidenceHits(blob, w) + VenueHits(item, rules, w, bonus) + TermRuleHits(blob, rules, w)
    + QueryHits(blob, rules.queryContext, w)
  }

  /**
   * Every rule that fires, in evaluation order: boosts, overall survival, progression-free
   * survival, sample size, journal, citations, penalties, include, exclude, query.
   */
  function ScoreHits(item: Item, rules: PackRules, w: map<string, real>, bonus: (int, real) -> int): seq<Hit> {
    RuleHits(Blob(item), BoostRules(w)) + RestHits(item, rules, w, bonus)
  }

  lemma HitsAssoc(a: seq<Hit>, b: seq<Hit>, c: seq<Hit>)
    ensures (a + b) + c == a + (b + c)
  {
  }

  /** One pass over `rules`, adding the points and the explanation of each rule that fires. */
  method FireRules(blob: string, rules: seq<Rule>) returns (score: int, hits: seq<Hit>)
    ensures hits == RuleHits(blob, rules) && score == Total(hits)
  {
    score, hits := 0, [];
    var i := 0;
    assert rules[i..] == rules;
    while i < |rules|
      invariant 0 <= i <= |rules|
      invariant hits + RuleHits(blob, rules[i..]) == RuleHits(blob, rules)
      invariant score == Total(hits)
    {
      var r := rules[i];
      assert rules[i..][1..] == rules[i + 1..];
      ghost var head := if Fires(blob, r) then [Hit(r.points, r.plus, r.reason)] else [];
      assert RuleHits(blob, rules[i..]) == head + RuleHits(blob, rules[i + 1..]);
      ghost var before := hits;
      if Fires(blob, r) {
        var h := Hit(r.points, r.plus, r.reason);
        TotalSnoc(hits, h);
        score, hits := score + h.points, hits + [h];
      }
      ghost var rest := RuleHits(blob, rules[i + 1..]);
      assert hits == before + head;
      HitsAssoc(before, head, rest);
      i := i + 1;
    }
    assert hits + [] == hits;
  }

  /** One pass over a term list, adding one hit per entry found. */
  method MatchTerms(blob: string, terms: seq<string>, points: int, plus: bool, prefix: string)
    returns (score: int, hits: seq<Hit>)
    ensures hits == TermHits(blob, terms, points, plus, prefix) && score == Total(hits)
  {
    score, hits := 0, [];
    var i := 0;
    while i < |terms|
      invariant 0 <= i <= |terms|
      invariant hits == TermHits(blob, terms[..i], points, plus, prefix)
      invariant score == Total(hits)
    {
      assert terms[..i + 1][..i] == terms[..i];
      if Found(blob, terms[i]) {
        var h := Hit(points, plus, prefix + terms[i]);
        TotalSnoc(hits, h);
        score, hits := score + h.points, hits + [h];
      }
      i := i + 1;
    }
    assert terms[..i] == terms;
  }

  /** A rule that fires on `cond` adds the points and the explanation of `h`. */
  method AddIf(score: int, hits: seq<Hit>, cond: bool, h: Hit) returns (score': int, hits': seq<Hit>)
    requires score == Total(hits)
    ensures hits' == hits + HitIf(cond, h) && score' == Total(hits')
  {
    if cond {
      TotalSnoc(hits, h);
      score', hits' := score + h.points, hits + [h];
    } else {
      assert hits + [] == hits;
      score', hits' := score, hits;
    }
  }

  /** The survival and sample-size rules of `score_item`. */
  method FireEvidenceRules(blob: string, w: map<string, real>) returns (score: int, hits: seq<Hit>)
    ensures hits == EvidenceHits(blob, w) && score == Total(hits)
  {
    ghost var first := HitIf(HasAny(blob, ["overall survival", " os "]), Hit(Pt(w, "overall_survival"), true, "overall survival"));
    score, hits := AddIf(0, [], HasAny(blob, ["overall survival", " os "]),
      Hit(Pt(w, "overall_survival"), true, "overall survival"));
    assert hits == first by { assert [] + first == first; }
    score, hits := AddIf(score, hits, HasAny(blob, ["progression-free survival", " pfs "]),
      Hit(Pt(w, "progression_free_survival"), true, "progression-free survival"));
    score, hits := AddIf(score, hits, SampleSizeBoost(blob),
      Hit(Pt(w, "sample_size"), true, "sample size >=200"));
  }

  /** The journal and citation rules of `score_item`. */
  method FireVenueRules(item: Item, rules: PackRules, w: map<string, real>, bonus: (int, real) -> int)
    returns (score: int, hits: seq<Hit>)
    ensures hits == VenueHits(item, rules, w, bonus) && score == Total(hits)
  {
    ghost var first := HitIf(HasAny(Lower(OrEmpty(item.venue)), rules.majorJournals), Hit(Pt(w, "major_journal"), true, "major journal"));
    score, hits := AddIf(0, [], HasAny(Lower(OrEmpty(item.venue)), rules.majorJournals),
      Hit(Pt(w, "major_journal"), true, "major journal"));
    assert hits == first by { assert [] + first == first; }
    if item.citations.Some? && item.citations.value >= 0 {
      var c := bonus(item.citations.value, Weight(w, "citations_multiplier"));
      score, hits := AddIf(score, hits, c > 0, Hit(c, true, "citations bonus"));
    } else {
      assert hits + [] == hits;
    }
  }

  /** The penalty, include-term and exclude-term passes of `score_item`. */
  method FireTermRules(blob: string, rules: PackRules, w: map<string, real>) returns (score: int, hits: seq<Hit>)
    ensures hits == TermRuleHits(blob, rules, w) && score == Total(hits)
  {
    var s1, h1 := FireRules(blob, PenaltyRules(w, rules.globalPenaltyTerms));
    var s2, h2 := MatchTerms(blob, rules.includeTerms, Pt(w, "include_term"), true, "include term: ");
    var s3, h3 := MatchTerms(blob, rules.excludeTerms, Pt(w, "exclude_term"), false, "exclude term: ");
    score, hits := s1 + s2 + s3, h1 + h2 + h3;
    assert score == Total(hits) by {
      TotalConcat(h1, h2);
      TotalConcat(h1 + h2, h3);
    }
  }

  /** Every rule of `score_item` after the boosts, section by section. */
  method FireRestRules(item: Item, rules: PackRules, w: map<string, real>, bonus: (int, real) -> int)
    returns (score: int, hits: seq<Hit>)
    ensures hits == RestHits(item, rules, w, bonus) && score == Total(hits)
  {
    var blob := Blob(item);
    var s1, h1 := FireEvidenceRules(blob, w);
    var s2, h2 := FireVenueRules(item, rules, w, bonus);
    var s3, h3 := FireTermRules(blob, rules, w);
    var s4, h4 := QueryRelevanceBoost(blob, rules.queryContext, w);
    score, hits := s1 + s2 + s3 + s4, h1 + h2 + h3 + h4;
    assert score == Total(hits) by {
      TotalConcat(h1, h2);
      TotalConcat(h1 + h2, h3);
      TotalConcat(h1 + h2 + h3, h4);
    }
  }

  /** Writes the explanation line of each hit, in order. */
  method RenderExplain(hits: seq<Hit>) returns (explain: seq<string>)
    ensures explain == Texts(hits)
  {
    explain := [];
    var i := 0;
    while i < |hits|
      invariant 0 <= i <= |hits|
      invariant explain == Texts(hits[..i])
    {
      TextsSnoc(hits[..i], hits[i]);
      assert hits[..i + 1] == hits[..i] + [hits[i]];
      explain := explain + [Text(hits[i])];
      i := i + 1;
    }
    assert hits[..i] == hits;
  }

  /**
   * `score_item`: the score is the total of the hits, the explanation their lines, and the
   * numbers shown in the explanation add up to the score.
   */
  method ScoreItem(item: Item, rules: PackRules, overrides: seq<(string, OverrideValue)>, bonus: (int, real) -> int)
    returns (score: int, explain: seq<string>)
    ensures score == Total(ScoreHits(item, rules, Weights(overrides), bonus))
    ensures explain == Texts(ScoreHits(item, rules, Weights(overrides), bonus))
    ensures score == ShownTotal(explain)
  {
    var w := ResolveWeights(overrides);
    var s0, h0 := FireRules(Blob(item), BoostRules(w));
    var s1, h1 := FireRestRules(item, rules, w, bonus);
    var hits := h0 + h1;
    score := s0 + s1;
    assert hits == ScoreHits(item, rules, w, bonus);
    assert score == Total(hits) by { TotalConcat(h0, h1); }
    explain := RenderExplain(hits);
    assert score == ShownTotal(explain) by { ShownTotalOfTexts(hits); }
  }

  /** `score_and_attach`: the item with its score and explanation set, nothing else changed. */
  method ScoreAndAttach(item: Item, rules: PackRules, overrides: seq<(string, OverrideValue)>, bonus: (int, real) -> int)
    returns (scored: Item)
    ensures scored == item.(score := Total(ScoreHits(item, rules, Weights(overrides), bonus)),
                            scoreExplain := Texts(ScoreHits(item, rules, Weights(overrides), bonus)))
    ensures scored.score == ShownTotal(scored.scoreExplain)
  {
    var score, explain := ScoreItem(item, rules, overrides, bonus);
    scored := item.(score := score, scoreExplain := explain);
  }

  // ---------------------------------------------------------------- phase III against phase II

  /** Rules that fire alike on two texts give the same hits. */
  lemma {:induction false} RuleHitsAlike(a: string, b: string, rules: seq<Rule>)
    requires forall k | 0 <= k < |rules| :: Fires(a, rules[k]) == Fires(b, rules[k])
    ensures RuleHits(a, rules) == RuleHits(b, rules)
    decreases |rules|
  {
    if rules != [] {
      assert Fires(a, rules[0]) == Fires(b, rules[0]);
      RuleHitsAlike(a, b, rules[1..]);
    }
  }

  /** The boost hits of phase III text are those of phase II text plus the phase III hit up front. */
  lemma BoostHitsPhaseThree(a: string, b: string, w: map<string, real>)
    requires Contains(Lower(a), "phase iii")
    requires !HasAny(b, ["phase iii", "phase 3"]) && HasAny(b, ["phase ii", "phase 2"])
    requires HasAny(a, ["randomized", "rct"]) == HasAny(b, ["randomized", "rct"])
    requires HasAny(a, ["meta-analysis", "systematic review"]) == HasAny(b, ["meta-analysis", "systematic review"])
    ensures RuleHits(a, BoostRules(w)) == [Hit(Pt(w, "phase_iii"), true, "phase iii")] + RuleHits(b, BoostRules(w))
  {
    var rs := BoostRules(w);
    PhaseThreeFiresBoth(a, w);
    assert !Fires(b, rs[0]);
    assert Fires(a, rs[3]) && Fires(b, rs[3]);
    assert Fires(a, rs[1]) == Fires(b, rs[1]);
    assert Fires(a, rs[2]) == Fires(b, rs[2]);
    var tail := rs[1..];
    assert forall k | 0 <= k < |tail| :: tail[k] == rs[k + 1];
    RuleHitsAlike(a, b, tail);
    assert RuleHits(a, rs) == [Hit(Pt(w, "phase_iii"), true, "phase iii")] + RuleHits(a, tail);
    assert RuleHits(b, rs) == [] + RuleHits(b, tail);
  }

  /**
   * Two items that differ only in their phase wording: one mentions phase III, the other
   * phase II but neither "phase iii" nor "phase 3", and every other rule treats them alike.
   * The phase III item scores exactly the phase III weight more; under the default weights
   * it scores higher.
   */
  lemma PhaseThreeOutscoresPhaseTwo(a: Item, b: Item, rules: PackRules, w: map<string, real>, bonus: (int, real) -> int)
    requires Contains(Lower(Blob(a)), "phase iii")
    requires !HasAny(Blob(b), ["phase iii", "phase 3"]) && HasAny(Blob(b), ["phase ii", "phase 2"])
    requires HasAny(Blob(a), ["randomized", "rct"]) == HasAny(Blob(b), ["randomized", "rct"])
    requires HasAny(Blob(a), ["meta-analysis", "systematic review"]) == HasAny(Blob(b), ["meta-analysis", "systematic review"])
    requires RestHits(a, rules, w, bonus) == RestHits(b, rules, w, bonus)
    ensures Total(ScoreHits(a, rules, w, bonus)) == Total(ScoreHits(b, rules, w, bonus)) + Pt(w, "phase_iii")
    ensures w == DefaultWeights ==> Total(ScoreHits(a, rules, w, bonus)) > Total(ScoreHits(b, rules, w, bonus))
  {
    var ha := RuleHits(Blob(a), BoostRules(w));
    var hb := RuleHits(Blob(b), BoostRules(w));
    var rest := RestHits(a, rules, w, bonus);
    var p3 := Hit(Pt(w, "phase_iii"), true, "phase iii");
    BoostHitsPhaseThree(Blob(a), Blob(b), w);
    assert Total(ha) == Total(hb) + p3.points by {
      TotalConcat([p3], hb);
      assert Total([p3]) == p3.points by { TotalSnoc([], p3); }
    }
    assert Total(ScoreHits(a, rules, w, bonus)) == Total(ha) + Total(rest) by { TotalConcat(ha, rest); }
    assert Total(ScoreHits(b, rules, w, bonus)) == Total(hb) + Total(rest) by { TotalConcat(hb, rest); }
    if w == DefaultWeights {
      DefaultPhaseThreeWeight();
    }
  }

  lemma DefaultPhaseThreeWeight()
    ensures Pt(DefaultWeights, "phase_iii") == 6
  {
    assert "phase_iii" in DefaultWeights;
    assert DefaultWeights["phase_iii"] == 6.0;
  }

  /** The line of a 12-point phase III boost. */
  lemma TwelvePointLine()
    ensures Text(Hit(12, true, "phase iii")) == "+12 phase iii"
  {
    assert NatToString(1) == "1";
    assert NatToString(12) == NatToString(1) + [DigitChar(2)];
    assert IntToString(12) == "12";
  }

  /** An override of `phase_iii` to 12 makes the phase III boost worth 12 points. */
  lemma PhaseThreeOverrideWeight()
    ensures Pt(Weights([("phase_iii", Number(12.0))]), "phase_iii") == 12
  {
    var ov := [("phase_iii", Number(12.0))];
    assert ov[..0] == [];
    assert OverrideFor(ov, "phase_iii") == Some(12.0);
  }

  /** Text with "phase iii" scored with `phase_iii` overridden to 12 explains "+12 phase iii". */
  lemma PhaseThreeOverrideExplained(item: Item, rules: PackRules, bonus: (int, real) -> int)
    requires Contains(Lower(Blob(item)), "phase iii")
    ensures "+12 phase iii" in Texts(ScoreHits(item, rules, Weights([("phase_iii", Number(12.0))]), bonus))
  {
    var w := Weights([("phase_iii", Number(12.0))]);
    PhaseThreeOverrideWeight();
    var h := Hit(12, true, "phase iii");
    PhaseThreeAlsoPhaseTwo(Blob(item), w);
    var boosts := RuleHits(Blob(item), BoostRules(w));
    var hits := ScoreHits(item, rules, w, bonus);
    assert h in boosts;
    assert h in hits by {
      assert hits == boosts + RestHits(item, rules, w, bonus);
    }
    TwelvePointLine();
    TextsMember(hits, h);
  }
}
