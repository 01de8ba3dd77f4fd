/**
 * Query expansion: a free-text search query becomes a boolean PubMed-style paper query,
 * a plain keyword trial query, the keyword list and the concept synonym groups.
 * The concept regexes are not interpreted: which of them match the query is an input.
 */
module Nlp {
  import opened Strings

  const Stopwords: set<string> := {
    "a", "an", "and", "are", "as", "at", "be", "by", "for", "from", "in", "into", "is", "it",
    "of", "on", "or", "that", "the", "to", "with", "without", "vs", "versus", "study", "trial",
    "trials", "cancer", "oncology"
  }

  /** The synonym lists of `CONCEPT_PATTERNS`, in table order; pattern `k` contributes `ConceptTerms[k]`. */
  const ConceptTerms: seq<seq<string>> := [
    ["NSCLC", "non-small cell lung cancer"],
    ["SCLC", "small cell lung cancer"],
    ["PD-1", "programmed death-1"],
    ["PD-L1", "programmed death-ligand 1"],
    ["checkpoint inhibitor", "immune checkpoint blockade"],
    ["CAR-T", "chimeric antigen receptor T cell"],
    ["immunotherapy", "immune therapy"],
    ["pneumonitis", "immune-related adverse event"],
    ["immune-related adverse event", "irAE"],
    ["overall survival", "OS"],
    ["progression-free survival", "PFS"],
    ["objective response rate", "ORR"],
    ["triple-negative breast cancer", "TNBC"],
    ["HER2", "ERBB2"],
    ["colorectal cancer", "CRC"]
  ]

  // ---------------------------------------------------------------- tokens

  /** The character class `[A-Za-z0-9\-\+]`. */
  predicate TokenChar(c: char) {
    IsAlnum(c) || c == '-' || c == '+'
  }

  /** The class `[a-z0-9\-\+]` that `_normalize_token` keeps. */
  predicate KeptTokenChar(c: char) {
    IsLowerAlnum(c) || c == '-' || c == '+'
  }

  /** The characters of `s` in the kept class, in order. */
  function KeptChars(s: string): (r: string)
    ensures forall i | 0 <= i < |r| :: KeptTokenChar(r[i])
  {
    if s == [] then []
    else (if KeptTokenChar(s[0]) then [s[0]] else []) + KeptChars(s[1..])
  }

  /** `_normalize_token` */
  function NormalizeToken(token: string): string {
    Strip(KeptChars(Lower(token)))
  }

  /** The length of the run of token characters that starts `s`. */
  function RunLength(s: string): (n: nat)
    ensures n <= |s|
    ensures forall i | 0 <= i < n :: TokenChar(s[i])
    ensures n < |s| ==> !TokenChar(s[n])
  {
    if s == [] || !TokenChar(s[0]) then 0 else 1 + RunLength(s[1..])
  }

  /**
   * `re.findall(r"[A-Za-z0-9\-\+]{3,}", s)`: the greedy scan takes every maximal run of
   * token characters that is three or more long, and skips the shorter ones.
   */
  function TokenRuns(s: string): seq<string>
    decreases |s|
  {
    if s == [] then []
    else if !TokenChar(s[0]) then TokenRuns(s[1..])
    else
      var n := RunLength(s);
      (if n >= 3 then [s[..n]] else []) + TokenRuns(s[n..])
  }

  /** Every run found is a piece of `s`, three or more token characters long. */
  lemma {:induction false} TokenRunsShape(s: string)
    ensures forall w | w in TokenRuns(s) ::
      |w| >= 3 && Contains(s, w) && forall i | 0 <= i < |w| :: TokenChar(w[i])
    decreases |s|
  {
    if s != [] {
      var n := if TokenChar(s[0]) then RunLength(s) else 1;
      TokenRunsShape(s[n..]);
      forall w | w in TokenRuns(s[n..]) ensures Contains(s, w) {
        ContainsInSuffix(s, n, w);
      }
      if TokenChar(s[0]) && n >= 3 {
        assert OccursAt(s, s[..n], 0);
      }
    }
  }

  lemma ContainsInSuffix(s: string, n: nat, w: string)
    requires n <= |s| && Contains(s[n..], w)
    ensures Contains(s, w)
  {
    var i :| 0 <= i <= |s[n..]| && OccursAt(s[n..], w, i);
    assert s[n..][i..i + |w|] == s[n + i..n + i + |w|];
    assert OccursAt(s, w, n + i);
  }

  /** A keyword candidate survives when it is non-empty, not a stopword and not all digits. */
  predicate Accepted(t: string, stop: set<string>) {
    t != "" && t !in stop && !AllDigits(t)
  }

  /** The normalised runs that are accepted, in order, repeats included. */
  function Candidates(words: seq<string>, stop: set<string>): seq<string> {
    if words == [] then []
    else
      var t := NormalizeToken(words[0]);
      (if Accepted(t, stop) then [t] else []) + Candidates(words[1..], stop)
  }

  /** The loop of `extract_keywords` stops once it holds `max_terms` keywords, and never before one. */
  function TermCap(maxTerms: int): nat {
    if maxTerms < 1 then 1 else maxTerms
  }

  /** What `extract_keywords` returns, with stopword set `stop` (`STOPWORDS` is `Stopwords`). */
  function Keywords(query: string, maxTerms: int, stop: set<string>): seq<string> {
    Take(Distinct(Candidates(TokenRuns(Lower(query)), stop)), TermCap(maxTerms))
  }

  /** `extract_keywords` */
  method ExtractKeywords(query: string, maxTerms: int, stop: set<string>) returns (out: seq<string>)
    ensures out == Keywords(query, maxTerms, stop)
  {
    var words := TokenRuns(Lower(query));
    out := [];
    var seen: set<string> := {};
    var i := 0;
    assert words[i..] == words;
    while i < |words|
      invariant i <= |words|
      invariant seen == set x | x in out
      invariant Distinct(Candidates(words, stop)) == out + DistinctFrom(Candidates(words[i..], stop), seen)
      invariant |out| < TermCap(maxTerms)
    {
      var t := NormalizeToken(words[i]);
      ghost var cur := Candidates(words[i..], stop);
      ghost var rest := Candidates(words[i + 1..], stop);
      CandidatesStep(words, i, stop);
      if !Accepted(t, stop) {
        assert cur == rest;
        i := i + 1;
        continue;
      }
      assert cur == [t] + rest;
      DistinctFromCons(t, rest, seen);
      if t in seen {
        assert DistinctFrom(cur, seen) == DistinctFrom(rest, seen);
        i := i + 1;
        continue;
      }
      KeepOne(out, t, DistinctFrom(rest, seen + {t}));
      seen := seen + {t};
      out := out + [t];
      if |out| >= maxTerms {
        TakeFront(out, DistinctFrom(rest, seen), TermCap(maxTerms));
        return;
      }
      i := i + 1;
    }
    assert words[i..] == [];
    TakeFront(out, [], TermCap(maxTerms));
  }

  lemma CandidatesStep(words: seq<string>, i: nat, stop: set<string>)
    requires i < |words|
    ensures var t := NormalizeToken(words[i]);
      Candidates(words[i..], stop) == (if Accepted(t, stop) then [t] else []) + Candidates(words[i + 1..], stop)
  {
    assert words[i..][1..] == words[i + 1..];
  }

  lemma KeepOne<T>(out: seq<T>, t: T, rest: seq<T>)
    ensures out + ([t] + rest) == (out + [t]) + rest
    ensures (set x | x in out + [t]) == (set x | x in out) + {t}
  {
  }

  lemma TakeFront<T>(xs: seq<T>, rest: seq<T>, n: nat)
    requires |xs| == n || (rest == [] && |xs| <= n)
    ensures Take(xs + rest, n) == xs
  {
    if rest == [] { assert xs + rest == xs; }
  }

  lemma NormalizeRun(w: string)
    requires forall i | 0 <= i < |w| :: KeptTokenChar(w[i]) && LowerChar(w[i]) == w[i]
    ensures NormalizeToken(w) == w
  {
    assert Lower(w) == w;
    KeptAll(w);
    StripOfKept(w);
  }

  lemma {:induction false} KeptAll(s: string)
    requires forall i | 0 <= i < |s| :: KeptTokenChar(s[i])
    ensures KeptChars(s) == s
  {
    if s != [] {
      KeptAll(s[1..]);
      assert s == [s[0]] + s[1..];
    }
  }

  lemma StripOfKept(s: string)
    requires forall i | 0 <= i < |s| :: KeptTokenChar(s[i])
    ensures Strip(s) == s
  {
    if s != [] {
      assert !IsSpace(s[0]) && !IsSpace(s[|s| - 1]);
    }
    StripOfTrimmed(s);
  }

  /** The runs of a lowered text are already normalised tokens, so each candidate is an accepted run. */
  lemma {:induction false} CandidatesOfRuns(words: seq<string>, s: string, stop: set<string>)
    requires s == Lower(s)
    requires forall w | w in words :: |w| >= 3 && Contains(s, w) && forall i | 0 <= i < |w| :: TokenChar(w[i])
    ensures forall t | t in Candidates(words, stop) ::
      |t| >= 3 && Contains(s, t) && (forall i | 0 <= i < |t| :: KeptTokenChar(t[i])) && Accepted(t, stop)
  {
    if words != [] {
      LoweredPiece(s, words[0]);
      NormalizeRun(words[0]);
      CandidatesOfRuns(words[1..], s, stop);
    }
  }

  /** A piece of a lowered text, all token characters, is its own lower case and in the kept class. */
  lemma LoweredPiece(s: string, w: string)
    requires s == Lower(s) && Contains(s, w) && forall i | 0 <= i < |w| :: TokenChar(w[i])
    ensures forall i | 0 <= i < |w| :: KeptTokenChar(w[i]) && LowerChar(w[i]) == w[i]
  {
    var j :| 0 <= j <= |s| && OccursAt(s, w, j);
    forall i | 0 <= i < |w| ensures LowerChar(w[i]) == w[i] && KeptTokenChar(w[i]) {
      assert w[i] == s[j..j + |w|][i] == s[j + i];
      assert s[j + i] == Lower(s)[j + i];
    }
  }

  /**
   * `extract_keywords` returns distinct keywords, at most `max_terms` of them (one when
   * `max_terms` is below one). Each keyword is a piece of the lowered query, three or more
   * characters from `[a-z0-9-+]`, no stopword and not all digits. The keywords are the
   * first distinct candidates in query order: below the cap, every candidate is kept.
   */
  lemma KeywordsSpec(query: string, maxTerms: int, stop: set<string>)
    ensures var r := Keywords(query, maxTerms, stop);
      && |r| <= TermCap(maxTerms)
      && (maxTerms >= 1 ==> |r| <= maxTerms)
      && (forall i, j | 0 <= i < j < |r| :: r[i] != r[j])
      && (forall t | t in r ::
            && |t| >= 3 && Contains(Lower(query), t)
            && (forall i | 0 <= i < |t| :: KeptTokenChar(t[i]))
            && t !in stop && !AllDigits(t))
      && r <= Distinct(Candidates(TokenRuns(Lower(query)), stop))
      && (|r| < TermCap(maxTerms) ==> forall t | t in Candidates(TokenRuns(Lower(query)), stop) :: t in r)
      && FirstDistinctOf(r, Candidates(TokenRuns(Lower(query)), stop), TermCap(maxTerms))
  {
    var s := Lower(query);
    LowerIdempotent(query);
    DistinctFromSpec(Candidates(TokenRuns(s), stop), {});
    FirstDistinct(Candidates(TokenRuns(s), stop), TermCap(maxTerms));
    TokenRunsShape(s);
    CandidatesOfRuns(TokenRuns(s), s, stop);
  }

  lemma LowerIdempotent(s: string)
    ensures Lower(Lower(s)) == Lower(s)
  {
  }

  // ---------------------------------------------------------------- concept groups

  /** `tuple(dict.fromkeys(t.strip() for t in terms if t.strip()))` */
  function NormTerms(terms: seq<string>): seq<string> {
    Distinct(StrippedTerms(terms))
  }

  /** The stripped terms that are not blank, in order. */
  function StrippedTerms(terms: seq<string>): (r: seq<string>)
    ensures forall k | 0 <= k < |r| :: r[k] != ""
  {
    if terms == [] then []
    else (if Strip(terms[0]) != "" then [Strip(terms[0])] else []) + StrippedTerms(terms[1..])
  }

  /** The non-empty normalised term lists of the patterns that fired, in table order. */
  function FiredGroups(table: seq<seq<string>>, fired: seq<bool>): (r: seq<seq<string>>)
    requires |fired| == |table|
    ensures forall k | 0 <= k < |r| :: r[k] != []
  {
    if table == [] then []
    else
      var g := NormTerms(table[0]);
      (if fired[0] && g != [] then [g] else []) + FiredGroups(table[1..], fired[1..])
  }

  /**
   * `_concept_groups` over a pattern table (`CONCEPT_PATTERNS` is `ConceptTerms`):
   * `fired[k]` says whether pattern `k` matched the query.
   */
  method ConceptGroups(table: seq<seq<string>>, fired: seq<bool>) returns (groups: seq<seq<string>>)
    requires |fired| == |table|
    ensures groups == Distinct(FiredGroups(table, fired))
  {
    groups := [];
    var seen: set<seq<string>> := {};
    var k := 0;
    assert table[k..] == table && fired[k..] == fired;
    while k < |table|
      invariant k <= |table|
      invariant seen == set x | x in groups
      invariant Distinct(FiredGroups(table, fired)) == groups + DistinctFrom(FiredGroups(table[k..], fired[k..]), seen)
    {
      ghost var cur := FiredGroups(table[k..], fired[k..]);
      ghost var rest := FiredGroups(table[k + 1..], fired[k + 1..]);
      FiredStep(table, fired, k);
      if fired[k] {
        var normTerms := NormTerms(table[k]);
        if normTerms != [] {
          assert cur == [normTerms] + rest;
          DistinctFromCons(normTerms, rest, seen);
          if normTerms !in seen {
            KeepOne(groups, normTerms, DistinctFrom(rest, seen + {normTerms}));
            groups := groups + [normTerms];
            seen := seen + {normTerms};
          } else {
            assert DistinctFrom(cur, seen) == DistinctFrom(rest, seen);
          }
        } else {
          assert cur == rest;
        }
      } else {
        assert cur == rest;
      }
      k := k + 1;
    }
    assert table[k..] == [];
  }

  lemma FiredStep(table: seq<seq<string>>, fired: seq<bool>, k: nat)
    requires |fired| == |table| && k < |table|
    ensures var g := NormTerms(table[k]);
      FiredGroups(table[k..], fired[k..])
        == (if fired[k] && g != [] then [g] else []) + FiredGroups(table[k + 1..], fired[k + 1..])
  {
    assert table[k..][1..] == table[k + 1..];
    assert fired[k..][1..] == fired[k + 1..];
  }

  /** Stripped, non-blank, repeat-free terms are their own normal form. */
  lemma NormTermsOfClean(terms: seq<string>)
    requires forall k | 0 <= k < |terms| :: terms[k] != "" && Trimmed(terms[k])
    requires forall i, j | 0 <= i < j < |terms| :: terms[i] != terms[j]
    ensures NormTerms(terms) == terms
  {
    StrippedOfClean(terms);
    DistinctOfDistinct(terms, {});
  }

  lemma {:induction false} StrippedOfClean(terms: seq<string>)
    requires forall k | 0 <= k < |terms| :: terms[k] != "" && Trimmed(terms[k])
    ensures StrippedTerms(terms) == terms
  {
    if terms != [] {
      StripOfTrimmed(terms[0]);
      StrippedOfClean(terms[1..]);
      assert terms == [terms[0]] + terms[1..];
    }
  }

  /** A repeat-free sequence that avoids `seen` passes `DistinctFrom` unchanged. */
  lemma {:induction false} DistinctOfDistinct<T>(xs: seq<T>, seen: set<T>)
    requires forall i, j | 0 <= i < j < |xs| :: xs[i] != xs[j]
    requires forall i | 0 <= i < |xs| :: xs[i] !in seen
    ensures DistinctFrom(xs, seen) == xs
    decreases |xs|
  {
    if xs != [] {
      DistinctOfDistinct(xs[1..], seen + {xs[0]});
      assert xs == [xs[0]] + xs[1..];
    }
  }

  /**
   * `_concept_groups` returns distinct, non-empty groups, each the normalised terms of a
   * pattern that fired, in table order (a repeated group where it first fired); every fired
   * pattern with terms is represented.
   */
  lemma ConceptGroupsSpec(table: seq<seq<string>>, fired: seq<bool>)
    requires |fired| == |table|
    ensures var r := Distinct(FiredGroups(table, fired));
      && (forall i, j | 0 <= i < j < |r| :: r[i] != r[j])
      && (forall g | g in r :: g != [] && g in FiredGroups(table, fired))
      && (forall k | 0 <= k < |table| && fired[k] && NormTerms(table[k]) != [] :: NormTerms(table[k]) in r)
      && IsSubseq(r, FiredGroups(table, fired))
      && InFirstSeenOrder(r, FiredGroups(table, fired))
  {
    DistinctFromSpec(FiredGroups(table, fired), {});
    DistinctFromSubseq(FiredGroups(table, fired), {});
    DistinctFromOrder(FiredGroups(table, fired), {});
    FiredMembers(table, fired);
  }

  lemma {:induction false} FiredMembers(table: seq<seq<string>>, fired: seq<bool>)
    requires |fired| == |table|
    ensures forall k | 0 <= k < |table| && fired[k] && NormTerms(table[k]) != [] ::
      NormTerms(table[k]) in FiredGroups(table, fired)
  {
    if table != [] {
      FiredMembers(table[1..], fired[1..]);
      forall k | 1 <= k < |table| && fired[k] && NormTerms(table[k]) != []
        ensures NormTerms(table[k]) in FiredGroups(table, fired)
      {
        assert table[1..][k - 1] == table[k] && fired[1..][k - 1] == fired[k];
      }
    }
  }

  // ---------------------------------------------------------------- query strings

  /** `_pubmed_group` */
  function PubmedGroup(group: seq<string>): string {
    if |group| == 1 then "(" + group[0] + ")" else "(" + Join(" OR ", group) + ")"
  }

  /** The one-term shortcut agrees with the general case: every group is its terms OR-ed in parentheses. */
  lemma PubmedGroupIsDisjunction(group: seq<string>)
    ensures PubmedGroup(group) == "(" + Join(" OR ", group) + ")"
  {
  }

  function PubmedGroups(groups: seq<seq<string>>): (r: seq<string>)
    ensures |r| == |groups|
    ensures forall k | 0 <= k < |groups| :: r[k] == PubmedGroup(groups[k])
  {
    if groups == [] then [] else [PubmedGroup(groups[0])] + PubmedGroups(groups[1..])
  }

  /** The result of `build_search_queries`. */
  datatype SearchQueries = SearchQueries(
    paperQuery: string, trialQuery: string, keywords: seq<string>, concepts: seq<seq<string>>)

  /** One single-term group per keyword. */
  function KeywordGroupsOf(keywords: seq<string>): (r: seq<seq<string>>)
    ensures |r| == |keywords|
    ensures forall k | 0 <= k < |keywords| :: r[k] == [keywords[k]]
  {
    if keywords == [] then [] else [[keywords[0]]] + KeywordGroupsOf(keywords[1..])
  }

  /** The groups the paper query is built from: concepts, then up to six one-keyword groups, else the raw query. */
  function MergedGroups(raw: string, concepts: seq<seq<string>>, keywords: seq<string>): seq<seq<string>> {
    var merged := concepts + KeywordGroupsOf(Take(keywords, 6));
    if merged == [] then [[raw]] else merged
  }

  /** The first term of each group, in order. */
  function FirstTerms(groups: seq<seq<string>>): (r: seq<string>)
    requires forall k | 0 <= k < |groups| :: groups[k] != []
    ensures |r| == |groups|
    ensures forall k | 0 <= k < |groups| :: r[k] == groups[k][0]
  {
    if groups == [] then [] else [groups[0][0]] + FirstTerms(groups[1..])
  }

  lemma MergedNonEmpty(raw: string, concepts: seq<seq<string>>, keywords: seq<string>)
    requires forall g | g in concepts :: g != []
    ensures var m := MergedGroups(raw, concepts, keywords);
      m != [] && forall k | 0 <= k < |m| :: m[k] != []
  {
    var m := concepts + KeywordGroupsOf(Take(keywords, 6));
    forall k | 0 <= k < |m| ensures m[k] != [] {
      if k < |concepts| { assert m[k] in concepts; }
    }
  }

  /** The trial query: the distinct first terms, space-joined, or the raw query when that is empty. */
  function TrialQuery(raw: string, groups: seq<seq<string>>): string
    requires forall k | 0 <= k < |groups| :: groups[k] != []
  {
    var trial := Join(" ", Distinct(FirstTerms(groups)));
    if trial != "" then trial else raw
  }

  /**
   * What `build_search_queries` returns, given the concept table (`CONCEPT_PATTERNS` is
   * `ConceptTerms`) and which of its patterns matched the stripped query.
   */
  function SearchQueriesOf(userQuery: string, stop: set<string>, table: seq<seq<string>>, fired: seq<bool>): SearchQueries
    requires |fired| == |table|
  {
    var raw := Strip(userQuery);
    if raw == "" then SearchQueries("", "", [], [])
    else
      var concepts := Distinct(FiredGroups(table, fired));
      var keywords := Keywords(raw, 10, stop);
      var groups := Take(MergedGroups(raw, concepts, keywords), 8);
      ConceptGroupsSpec(table, fired);
      MergedNonEmpty(raw, concepts, keywords);
      SearchQueries(Join(" AND ", PubmedGroups(groups)), TrialQuery(raw, groups), keywords, concepts)
  }

  /** The loop of `build_search_queries` that takes the first term of each group. */
  method CollectFirstTerms(groups: seq<seq<string>>) returns (trialTerms: seq<string>)
    requires forall k | 0 <= k < |groups| :: groups[k] != []
    ensures trialTerms == FirstTerms(groups)
  {
    trialTerms := [];
    for k := 0 to |groups|
      invariant trialTerms == FirstTerms(groups[..k])
    {
      FirstTermsSnoc(groups, k);
      trialTerms := trialTerms + [groups[k][0]];
    }
    assert groups[..|groups|] == groups;
  }

  lemma FirstTermsSnoc(groups: seq<seq<string>>, k: nat)
    requires k < |groups| && forall j | 0 <= j < |groups| :: groups[j] != []
    ensures FirstTerms(groups[..k + 1]) == FirstTerms(groups[..k]) + [groups[k][0]]
  {
    var a := FirstTerms(groups[..k + 1]);
    var b := FirstTerms(groups[..k]) + [groups[k][0]];
    assert |a| == |b|;
    forall j | 0 <= j < |a| ensures a[j] == b[j] {
      if j < k { assert groups[..k + 1][j] == groups[..k][j]; }
    }
  }

  /** `build_search_queries`; a missing query is passed as "". */
  method BuildSearchQueries(userQuery: string, stop: set<string>, table: seq<seq<string>>, fired: seq<bool>)
    returns (out: SearchQueries)
    requires |fired| == |table|
    ensures out == SearchQueriesOf(userQuery, stop, table, fired)
  {
    var raw := Strip(userQuery);
    if raw == "" {
      return SearchQueries("", "", [], []);
    }
    var concepts := ConceptGroups(table, fired);
    var keywords := ExtractKeywords(raw, 10, stop);
    var groups := Take(MergedGroups(raw, concepts, keywords), 8);
    ConceptGroupsSpec(table, fired);
    MergedNonEmpty(raw, concepts, keywords);
    var trialTerms := CollectFirstTerms(groups);
    var trial := Join(" ", Distinct(trialTerms));
    out := SearchQueries(Join(" AND ", PubmedGroups(groups)), if trial != "" then trial else raw, keywords, concepts);
  }

  /** A blank query gives empty queries and no keywords or concepts. */
  lemma BlankQuery(userQuery: string, stop: set<string>, table: seq<seq<string>>, fired: seq<bool>)
    requires |fired| == |table| && Strip(userQuery) == ""
    ensures SearchQueriesOf(userQuery, stop, table, fired) == SearchQueries("", "", [], [])
  {
  }

  /**
   * The paper query AND-s at most eight groups: the concept groups, then one group per
   * keyword among the first six, or the raw query alone when there are neither; each
   * group is its terms OR-ed in parentheses. The trial query is never empty: it is the
   * distinct first terms of those groups, space-joined, or the stripped query when that is empty.
   */
  lemma SearchQueriesSpec(userQuery: string, stop: set<string>, table: seq<seq<string>>, fired: seq<bool>)
    requires |fired| == |table| && Strip(userQuery) != ""
    ensures var raw := Strip(userQuery);
      var out := SearchQueriesOf(userQuery, stop, table, fired);
      var groups := Take(MergedGroups(raw, out.concepts, out.keywords), 8);
      && out.concepts == Distinct(FiredGroups(table, fired))
      && out.keywords == Keywords(raw, 10, stop)
      && |groups| <= 8 && groups != []
      && out.paperQuery == Join(" AND ", PubmedGroups(groups))
      && (forall k | 0 <= k < |groups| :: groups[k] != [] &&
            PubmedGroups(groups)[k] == "(" + Join(" OR ", groups[k]) + ")")
      && (out.concepts == [] && out.keywords == [] ==> groups == [[raw]])
      && out.trialQuery != ""
      && (Join(" ", Distinct(FirstTerms(groups))) != "" ==> out.trialQuery == Join(" ", Distinct(FirstTerms(groups))))
      && (Join(" ", Distinct(FirstTerms(groups))) == "" ==> out.trialQuery == raw)
  {
    var raw := Strip(userQuery);
    var out := SearchQueriesOf(userQuery, stop, table, fired);
    ConceptGroupsSpec(table, fired);
    MergedNonEmpty(raw, out.concepts, out.keywords);
    var groups := Take(MergedGroups(raw, out.concepts, out.keywords), 8);
    forall k | 0 <= k < |groups| ensures PubmedGroups(groups)[k] == "(" + Join(" OR ", groups[k]) + ")" {
      PubmedGroupIsDisjunction(groups[k]);
    }
  }

  /** The merged groups start with the concepts, then one single-term group per keyword among the first six. */
  lemma MergedLayout(raw: string, concepts: seq<seq<string>>, keywords: seq<string>)
    requires concepts != [] || keywords != []
    ensures var m := MergedGroups(raw, concepts, keywords);
      && m[..|concepts|] == concepts
      && |m| == |concepts| + |Take(keywords, 6)|
      && forall i | 0 <= i < |Take(keywords, 6)| :: m[|concepts| + i] == [keywords[i]]
  {
  }
}
