/**
 * The decision logic of the pipeline service that needs no connector: run options and mode
 * presets, the sources key, the incremental window, the inclusion filters and the
 * search-relevance test.
 */
module PipelineOptions {
  import opened Wrappers
  import opened Strings
  import opened Records
  import Scoring
  import Db

  // ---------------------------------------------------------------- options and presets

  const ModeAll: string := "All"
  const ModeClinician: string := "Clinician (Practice-changing)"
  const ModeSafetyWatch: string := "Safety Watch"
  const ModeTrialRadar: string := "Trial Radar"
  const ModeResearcher: string := "Researcher"
  const ModeFellow: string := "Fellow"

  /**
   * `RunOptions` with its defaults. `scoringWeights` lists the override pairs; None and an
   * empty dictionary both leave the default weights in place, so both are the empty list.
   */
  datatype RunOptions = RunOptions(
    modeName: string := "All",
    daysBack: int := 14,
    retmaxPubmed: int := 200,
    trialsLimit: int := 100,
    europepmcLimit: int := 100,
    preprintLimit: int := 100,
    rssLimit: int := 100,
    fdaLimit: int := 100,
    includeTrials: bool := true,
    includePapers: bool := true,
    includePreprints: bool := false,
    includeJournalRss: bool := true,
    includeFdaApprovals: bool := true,
    enrichCitations: bool := false,
    phase23Only: bool := false,
    rctMetaOnly: bool := false,
    maxRunSeconds: int := 45,
    scoringWeights: seq<(string, Scoring.OverrideValue)> := [],
    enableSemanticScholar: bool := false,
    incrementalCapDays: Option<int> := None,
    forceFullRefresh: bool := false,
    useFullTextOa: bool := false,
    llmPolishSummary: bool := false
  )

  /** One entry of `MODE_PRESETS`. */
  datatype Preset = Preset(
    includePapers: bool, includeTrials: bool, includePreprints: bool, includeJournalRss: bool,
    includeFdaApprovals: bool, phase23Only: bool, rctMetaOnly: bool, useFullTextOa: bool,
    scoringWeights: seq<(string, real)>)

  /** `MODE_PRESETS[name]`, or None for a name that is not a preset. */
  function ModePreset(name: string): Option<Preset> {
    if name == ModeAll then
      Some(Preset(true, true, true, true, true, false, false, false, []))
    else if name == ModeClinician then
      Some(Preset(true, true, false, false, true, true, true, false,
        [("phase_iii", 10.0), ("randomized", 8.0), ("overall_survival", 5.0),
         ("progression_free_survival", 4.0), ("meta_analysis", 5.0)]))
    else if name == ModeSafetyWatch then
      Some(Preset(true, true, false, true, true, false, false, false,
        [("meta_analysis", 6.0), ("phase_iii", 6.0), ("randomized", 5.0),
         ("overall_survival", 2.0), ("progression_free_survival", 2.0)]))
    else if name == ModeTrialRadar then
      Some(Preset(false, true, false, false, true, false, false, false,
        [("phase_iii", 8.0), ("phase_ii", 5.0), ("randomized", 6.0),
         ("overall_survival", 3.0), ("progression_free_survival", 3.0)]))
    else if name == ModeResearcher then
      Some(Preset(true, true, true, true, false, false, false, true,
        [("meta_analysis", 5.0), ("phase_iii", 6.0), ("phase_ii", 4.0), ("citations_multiplier", 1.5)]))
    else if name == ModeFellow then
      Some(Preset(true, true, true, false, false, false, false, false,
        [("phase_iii", 7.0), ("randomized", 6.0), ("meta_analysis", 5.0), ("sample_size", 2.0),
         ("citations_multiplier", 1.2)]))
    else None
  }

  /** `get_mode_preset`: the named preset, or the "All" preset for any other name. */
  function GetModePreset(name: string): (p: Preset)
    ensures ModePreset(name).Some? ==> p == ModePreset(name).value
    ensures ModePreset(name).None? ==> p == ModePreset(ModeAll).value
  {
    if ModePreset(name).Some? then ModePreset(name).value else Preset(true, true, true, true, true, false, false, false, [])
  }

  /**
   * Every preset enables trials; only "Researcher" uses open-access full text; only
   * "Clinician" restricts to phase II/III and RCT/meta-analysis records; "All" enables every
   * source and keeps the default weights.
   */
  lemma PresetFacts(name: string)
    ensures GetModePreset(name).includeTrials
    ensures GetModePreset(name).useFullTextOa <==> name == ModeResearcher
    ensures GetModePreset(name).phase23Only <==> name == ModeClinician
    ensures GetModePreset(name).rctMetaOnly <==> name == ModeClinician
    ensures ModePreset(name).None? ==> GetModePreset(name).scoringWeights == []
  {
  }

  // ---------------------------------------------------------------- sources key

  /** The enabled sources, in the fixed order papers, trials, preprints, journal_rss, fda. */
  function Selected(o: RunOptions): seq<string> {
    AppendIf(o.includeFdaApprovals, "fda",
      AppendIf(o.includeJournalRss, "journal_rss",
        AppendIf(o.includePreprints, "preprints",
          AppendIf(o.includeTrials, "trials",
            AppendIf(o.includePapers, "papers", [])))))
  }

  /** `if flag: selected.append(name)` */
  function AppendIf(flag: bool, name: string, xs: seq<string>): seq<string> {
    if flag then xs + [name] else xs
  }

  lemma AppendIfMembers(flag: bool, name: string, xs: seq<string>)
    ensures forall x :: x in AppendIf(flag, name, xs) <==> x in xs || (flag && x == name)
  {
  }

  function SourcesKey(o: RunOptions): string {
    if Selected(o) == [] then "none" else Join(",", Selected(o))
  }

  /** `build_sources_key` */
  method BuildSourcesKey(o: RunOptions) returns (key: string)
    ensures key == SourcesKey(o)
  {
    var selected: seq<string> := [];
    ghost var s0 := selected;
    if o.includePapers {
      selected := selected + ["papers"];
    }
    assert selected == AppendIf(o.includePapers, "papers", s0);
    ghost var s1 := selected;
    if o.includeTrials {
      selected := selected + ["trials"];
    }
    assert selected == AppendIf(o.includeTrials, "trials", s1);
    ghost var s2 := selected;
    if o.includePreprints {
      selected := selected + ["preprints"];
    }
    assert selected == AppendIf(o.includePreprints, "preprints", s2);
    ghost var s3 := selected;
    if o.includeJournalRss {
      selected := selected + ["journal_rss"];
    }
    assert selected == AppendIf(o.includeJournalRss, "journal_rss", s3);
    ghost var s4 := selected;
    if o.includeFdaApprovals {
      selected := selected + ["fda"];
    }
    assert selected == AppendIf(o.includeFdaApprovals, "fda", s4);
    key := if selected != [] then Join(",", selected) else "none";
  }

  /** The five source flags. */
  predicate SameSources(a: RunOptions, b: RunOptions) {
    a.includePapers == b.includePapers && a.includeTrials == b.includeTrials
    && a.includePreprints == b.includePreprints && a.includeJournalRss == b.includeJournalRss
    && a.includeFdaApprovals == b.includeFdaApprovals
  }

  /** Each source name is in the list exactly when its flag is set, and "none" never is. */
  lemma SelectedMembers(o: RunOptions)
    ensures "papers" in Selected(o) <==> o.includePapers
    ensures "trials" in Selected(o) <==> o.includeTrials
    ensures "preprints" in Selected(o) <==> o.includePreprints
    ensures "journal_rss" in Selected(o) <==> o.includeJournalRss
    ensures "fda" in Selected(o) <==> o.includeFdaApprovals
    ensures "none" !in Selected(o)
    ensures forall k | 0 <= k < |Selected(o)| :: Lacks(Selected(o)[k], ',')
  {
    SelectedNames(o);
    assert Lacks("papers", ',') && Lacks("trials", ',') && Lacks("preprints", ',');
    assert Lacks("journal_rss", ',') && Lacks("fda", ',');
    forall k | 0 <= k < |Selected(o)| ensures Lacks(Selected(o)[k], ',') {
      assert Selected(o)[k] in Selected(o);
    }
  }

  lemma SelectedNames(o: RunOptions)
    ensures forall x :: x in Selected(o) <==>
      (o.includePapers && x == "papers") || (o.includeTrials && x == "trials") || (o.includePreprints && x == "preprints")
      || (o.includeJournalRss && x == "journal_rss") || (o.includeFdaApprovals && x == "fda")
  {
    var s1 := AppendIf(o.includePapers, "papers", []);
    var s2 := AppendIf(o.includeTrials, "trials", s1);
    var s3 := AppendIf(o.includePreprints, "preprints", s2);
    var s4 := AppendIf(o.includeJournalRss, "journal_rss", s3);
    AppendIfMembers(o.includePapers, "papers", []);
    AppendIfMembers(o.includeTrials, "trials", s1);
    AppendIfMembers(o.includePreprints, "preprints", s2);
    AppendIfMembers(o.includeJournalRss, "journal_rss", s3);
    AppendIfMembers(o.includeFdaApprovals, "fda", s4);
  }

  /** The key is "none" exactly when no source is enabled. */
  lemma SourcesKeyNone(o: RunOptions)
    ensures SourcesKey(o) == "none" <==> Selected(o) == []
  {
    if Selected(o) != [] {
      SelectedMembers(o);
      assert Lacks("none", ',');
      JoinNotWord(Selected(o), "none");
    }
  }

  /** Comma-free parts joined by commas never give a comma-free word that is not among them. */
  lemma JoinNotWord(xs: seq<string>, w: string)
    requires |xs| >= 1 && forall k | 0 <= k < |xs| :: Lacks(xs[k], ',')
    requires Lacks(w, ',') && w !in xs
    ensures Join(",", xs) != w
  {
    SplitOnJoin(xs, ',');
    NoCommaSplit(w);
    assert w in [w];
  }

  lemma NoCommaSplit(s: string)
    requires Lacks(s, ',')
    ensures SplitOn(s, ',') == [s]
  {
    SplitOnJoin([s], ',');
  }

  /** The key is a function of the five source flags alone, and it determines them. */
  lemma SourcesKeyDeterminesSources(a: RunOptions, b: RunOptions)
    ensures SourcesKey(a) == SourcesKey(b) <==> SameSources(a, b)
  {
    if SourcesKey(a) == SourcesKey(b) {
      SourcesKeyNone(a);
      SourcesKeyNone(b);
      SelectedMembers(a);
      SelectedMembers(b);
      if Selected(a) != [] {
        SplitOnJoin(Selected(a), ',');
        SplitOnJoin(Selected(b), ',');
        assert Selected(a) == Selected(b);
      }
    }
  }

  // ---------------------------------------------------------------- incremental window

  /** `incremental_cap_days or days_back` */
  function CapDays(o: RunOptions): int {
    if o.incrementalCapDays.Some? && o.incrementalCapDays.value != 0 then o.incrementalCapDays.value else o.daysBack
  }

  /** `finished_at or started_at` */
  function ReferenceText(r: Db.RunRow): string {
    if Truthy(r.finishedAt) then r.finishedAt.value else r.startedAt
  }

  /**
   * The window for a run that is not a forced refresh, given the latest matching success.
   * `elapsedDays` stands for parsing an ISO timestamp and measuring the days since it (None
   * when it does not parse).
   */
  function WindowDays(o: RunOptions, last: Option<Db.RunRow>, elapsedDays: string -> Option<real>): int {
    var cap := CapDays(o);
    if last.None? then Min(o.daysBack, cap)
    else
      var reference := ReferenceText(last.value);
      if reference == "" || elapsedDays(reference).None? then Min(o.daysBack, cap)
      else Min(Max(1, Ceil(elapsedDays(reference).value)), cap)
  }

  function Min(a: int, b: int): int { if a <= b then a else b }
  function Max(a: int, b: int): int { if a >= b then a else b }

  /**
   * `resolve_incremental_days_back`: a forced refresh takes `days_back` and looks nothing
   * up; otherwise the latest success of the same scope, mode and sources key sets the window.
   */
  method ResolveIncrementalDaysBack(store: Db.Store, specialty: string, subcategory: string, o: RunOptions,
                                    elapsedDays: string -> Option<real>)
    returns (days: int, last: Option<Db.RunRow>)
    requires store.Valid()
    ensures o.forceFullRefresh ==> days == o.daysBack && last.None?
    ensures !o.forceFullRefresh ==>
      && last == Db.LatestSuccess(store.runs, specialty, subcategory, Some(o.modeName), Some(SourcesKey(o)))
      && days == WindowDays(o, last, elapsedDays)
  {
    if o.forceFullRefresh {
      return o.daysBack, None;
    }
    var cap := CapDays(o);
    var key := BuildSourcesKey(o);
    last := store.GetLastSuccessfulRun(specialty, subcategory, Some(o.modeName), Some(key));
    if last.None? {
      return Min(o.daysBack, cap), last;
    }
    var reference := ReferenceText(last.value);
    var elapsed := if reference == "" then None else elapsedDays(reference);
    if elapsed.None? {
      return Min(o.daysBack, cap), last;
    }
    var resolved := Max(1, Ceil(elapsed.value));
    days := Min(resolved, cap);
  }

  /**
   * The window never exceeds the cap. After a success whose time parses, it covers the
   * elapsed days (at least one) unless the cap cuts it short, and it overshoots them by less
   * than a day.
   */
  lemma WindowBounds(o: RunOptions, last: Option<Db.RunRow>, elapsedDays: string -> Option<real>)
    ensures WindowDays(o, last, elapsedDays) <= CapDays(o)
    ensures last.Some? && ReferenceText(last.value) != "" && elapsedDays(ReferenceText(last.value)).Some? ==>
      var e := elapsedDays(ReferenceText(last.value)).value;
      var d := WindowDays(o, last, elapsedDays);
      (d == CapDays(o) || (d >= 1 && e <= d as real)) && (d <= 1 || (d - 1) as real < e)
    ensures (last.None? || ReferenceText(last.value) == "" || elapsedDays(ReferenceText(last.value)).None?) ==>
      WindowDays(o, last, elapsedDays) == Min(o.daysBack, CapDays(o))
  {
  }

  /** A success two days (and less than a second more) ago, with a cap of at least 3, gives 2 or 3 days. */
  lemma TwoDaysAgo(o: RunOptions, last: Db.RunRow, elapsedDays: string -> Option<real>)
    requires ReferenceText(last) != "" && elapsedDays(ReferenceText(last)).Some?
    requires 2.0 <= elapsedDays(ReferenceText(last)).value < 3.0
    requires CapDays(o) >= 3
    ensures WindowDays(o, Some(last), elapsedDays) == 2 || WindowDays(o, Some(last), elapsedDays) == 3
  {
  }

  // ---------------------------------------------------------------- inclusion filters

  const PhaseTerms: seq<string> := ["phase ii", "phase 2", "phase iii", "phase 3"]
  const RctMetaTerms: seq<string> := ["randomized", "rct", "meta-analysis", "systematic review"]

  /** Python's `str()` of an optional string in an f-string: None renders as "None". */
  function Shown(x: Option<string>): string {
    if x.Some? then x.value else "None"
  }

  /** The lowered title and text the filters read. */
  function FilterText(item: Item): string {
    Lower(item.title + " " + Shown(item.abstractOrText))
  }

  /** The `include` test of `_apply_filters`. */
  predicate Included(o: RunOptions, item: Item) {
    var text := FilterText(item);
    (!o.phase23Only || ContainsAny(text, PhaseTerms)) && (!o.rctMetaOnly || ContainsAny(text, RctMetaTerms))
  }

  /** `Included` as a value, named so that every use is the same function. */
  function Include(o: RunOptions): Item -> bool {
    item => Included(o, item)
  }

  /** `_apply_filters` */
  function ApplyFilters(items: seq<Item>, o: RunOptions): seq<Item> {
    Filter(items, Include(o))
  }

  /**
   * The filter keeps, in order, exactly the records that pass every enabled check, and it is
   * the identity when both checks are off.
   */
  lemma ApplyFiltersSpec(items: seq<Item>, o: RunOptions)
    ensures IsSubseq(ApplyFilters(items, o), items)
    ensures |ApplyFilters(items, o)| <= |items|
    ensures forall x | x in ApplyFilters(items, o) :: x in items && Included(o, x)
    ensures forall x | x in items && Included(o, x) :: x in ApplyFilters(items, o)
    ensures !o.phase23Only && !o.rctMetaOnly ==> ApplyFilters(items, o) == items
  {
    FilterSpec(items, Include(o));
    forall x | x in ApplyFilters(items, o) ensures Included(o, x) {
      assert Include(o)(x);
    }
    forall x | x in items && Included(o, x) ensures x in ApplyFilters(items, o) {
      assert Include(o)(x);
    }
    if !o.phase23Only && !o.rctMetaOnly {
      FilterAll(items, Include(o));
    }
  }

  /** `_default_rules` */
  function DefaultRules(): Scoring.PackRules {
    Scoring.PackRules(
      majorJournals := ["NEJM", "J Clin Oncol", "Lancet", "Lancet Oncology", "Annals of Oncology", "Nature Medicine", "Blood"],
      globalPenaltyTerms := ["case report", "in vitro", "murine", "mouse"],
      includeTerms := [], excludeTerms := [])
  }

  // ---------------------------------------------------------------- search relevance

  /** `_query_key`: the scope name of a search, from at most 180 characters of the query. */
  function QueryKey(query: string): (k: string)
    ensures 6 <= |k| <= 186 && k[..6] == "query:"
  {
    "query:" + Take(Lower(Strip(query)), 180)
  }

  /** Queries that differ only in case and surrounding whitespace share a scope. */
  lemma QueryKeyCanonical(a: string, b: string)
    requires Lower(Strip(a)) == Lower(Strip(b))
    ensures QueryKey(a) == QueryKey(b)
  {
  }

  /** `_item_search_blob` */
  function SearchBlob(item: Item): string {
    Lower(Join(" ", [item.title, OrEmpty(item.abstractOrText), OrEmpty(item.conditions), OrEmpty(item.interventions),
                     OrEmpty(item.primaryEndpoints), OrEmpty(item.studyType), OrEmpty(item.phase)]))
  }

  predicate AllAlnum(s: string) {
    forall i | 0 <= i < |s| :: IsAlnum(s[i])
  }

  /**
   * `_contains_query_term`: a blank term matches nothing, an alphanumeric term matches on
   * word boundaries, any other term as a substring.
   */
  predicate ContainsQueryTerm(blob: string, term: string) {
    var token := Lower(Strip(term));
    token != "" && (if AllAlnum(token) then ContainsWord(blob, token) else Contains(blob, token))
  }

  /** `any(_contains_query_term(blob, t) for t in terms)` */
  predicate AnyTerm(blob: string, terms: seq<string>)
    decreases |terms|
  {
    terms != [] && (ContainsQueryTerm(blob, terms[0]) || AnyTerm(blob, terms[1..]))
  }

  /** The concept loop: some list group has a matching term; other entries are skipped. */
  predicate AnyConcept(blob: string, concepts: seq<ConceptEntry>)
    decreases |concepts|
  {
    concepts != []
    && ((concepts[0].Group? && AnyTerm(blob, concepts[0].terms)) || AnyConcept(blob, concepts[1..]))
  }

  /** `_is_search_relevant` */
  predicate IsSearchRelevant(item: Item, ctx: QueryContext) {
    var blob := SearchBlob(item);
    var raw := Lower(Strip(OrEmpty(ctx.rawQuery)));
    Strip(blob) != ""
    && (AnyConcept(blob, ctx.concepts) || AnyTerm(blob, ctx.keywords) || (raw != "" && |raw| >= 4 && Contains(blob, raw)))
  }

  lemma {:induction false} AnyTermSpec(blob: string, terms: seq<string>)
    ensures AnyTerm(blob, terms) <==> exists k | 0 <= k < |terms| :: ContainsQueryTerm(blob, terms[k])
    decreases |terms|
  {
    if terms != [] {
      AnyTermSpec(blob, terms[1..]);
      if AnyTerm(blob, terms[1..]) {
        var k :| 0 <= k < |terms[1..]| && ContainsQueryTerm(blob, terms[1..][k]);
        assert terms[k + 1] == terms[1..][k];
      }
      if exists k | 0 <= k < |terms| :: ContainsQueryTerm(blob, terms[k]) {
        var k :| 0 <= k < |terms| && ContainsQueryTerm(blob, terms[k]);
        if k > 0 { assert terms[1..][k - 1] == terms[k]; }
      }
    }
  }

  lemma {:induction false} AnyConceptSpec(blob: string, concepts: seq<ConceptEntry>)
    ensures AnyConcept(blob, concepts) <==>
      exists g, k | 0 <= g < |concepts| && concepts[g].Group? && 0 <= k < |concepts[g].terms| ::
        ContainsQueryTerm(blob, concepts[g].terms[k])
    decreases |concepts|
  {
    if concepts != [] {
      AnyConceptSpec(blob, concepts[1..]);
      if concepts[0].Group? { AnyTermSpec(blob, concepts[0].terms); }
      if AnyConcept(blob, concepts[1..]) {
        var g, k :| 0 <= g < |concepts[1..]| && concepts[1..][g].Group? && 0 <= k < |concepts[1..][g].terms|
          && ContainsQueryTerm(blob, concepts[1..][g].terms[k]);
        assert concepts[g + 1] == concepts[1..][g];
      }
      if exists g, k | 0 <= g < |concepts| && concepts[g].Group? && 0 <= k < |concepts[g].terms| ::
           ContainsQueryTerm(blob, concepts[g].terms[k]) {
        var g, k :| 0 <= g < |concepts| && concepts[g].Group? && 0 <= k < |concepts[g].terms|
          && ContainsQueryTerm(blob, concepts[g].terms[k]);
        if g > 0 { assert concepts[1..][g - 1] == concepts[g]; }
      }
    }
  }

  /**
   * A record is relevant exactly when its blob is not blank and it contains a term of some
   * concept group, a keyword, or the raw query of at least four characters (alphanumeric
   * terms on word boundaries).
   */
  lemma IsSearchRelevantSpec(item: Item, ctx: QueryContext)
    ensures IsSearchRelevant(item, ctx) <==>
      var blob := SearchBlob(item);
      var raw := Lower(Strip(OrEmpty(ctx.rawQuery)));
      && Strip(blob) != ""
      && ((exists g, k | 0 <= g < |ctx.concepts| && ctx.concepts[g].Group? && 0 <= k < |ctx.concepts[g].terms| ::
             ContainsQueryTerm(blob, ctx.concepts[g].terms[k]))
          || (exists k | 0 <= k < |ctx.keywords| :: ContainsQueryTerm(blob, ctx.keywords[k]))
          || (|raw| >= 4 && Contains(blob, raw)))
  {
    AnyConceptSpec(SearchBlob(item), ctx.concepts);
    AnyTermSpec(SearchBlob(item), ctx.keywords);
  }

  /** A term of ASCII letters and digits that occurs only inside longer words does not match. */
  lemma AlnumTermNeedsWord(blob: string, term: string)
    requires AllAlnum(Lower(Strip(term)))
    requires forall i :: !WordAt(blob, Lower(Strip(term)), i)
    ensures !ContainsQueryTerm(blob, term)
  {
  }
}
