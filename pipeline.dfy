/**
 * The pipeline service's runs: the failure-isolated fan-out to the connectors, the finalize
 * loop that enriches, scores, summarises and stores each deduplicated record until the time
 * budget runs out, and the two entry points that frame them with the run ledger.
 *
 * The connectors, the monotonic clock and the per-record lookups are inputs: `fetch` answers
 * one connector call, `clock(k)` is the number of seconds since the run started at the k-th
 * timeout check, and `Env` carries the rest.
 */
module Pipeline {
  import opened Wrappers
  import opened Strings
  import opened Records
  import opened PipelineOptions
  import Scoring
  import Summarize
  import Dedup
  import Db
  import OpenAlex
  import FullTextOa
  import Nlp

  // ---------------------------------------------------------------- ingestion

  datatype Connector = PubMed | EuropePmcPapers | JournalRss | Preprints | EuropePmcPreprints | ClinicalTrials | Fda

  /** The connectors `_ingest_for_query` calls, in its order; RSS only inside the papers block. */
  function Plan(o: RunOptions): seq<Connector> {
    (if o.includePapers then [PubMed, EuropePmcPapers] + (if o.includeJournalRss then [JournalRss] else []) else [])
    + (if o.includePreprints then [Preprints, EuropePmcPreprints] else [])
    + (if o.includeTrials then [ClinicalTrials] else [])
    + (if o.includeFdaApprovals then [Fda] else [])
  }

  /** One connector call: the query it is given, its window in days (if it takes one) and its limit. */
  datatype Call = Call(connector: Connector, query: string, daysBack: Option<int>, limit: int)

  function CallOf(c: Connector, paperQuery: string, trialQuery: string, o: RunOptions): Call {
    match c
    case PubMed => Call(c, paperQuery, Some(o.daysBack), o.retmaxPubmed)
    case EuropePmcPapers => Call(c, paperQuery, Some(o.daysBack), o.europepmcLimit)
    case JournalRss => Call(c, paperQuery, None, o.rssLimit)
    case Preprints => Call(c, paperQuery, Some(o.daysBack), o.preprintLimit)
    case EuropePmcPreprints => Call(c, paperQuery, Some(o.daysBack), o.preprintLimit)
    case ClinicalTrials => Call(c, trialQuery, None, o.trialsLimit)
    case Fda => Call(c, trialQuery, Some(o.daysBack), o.fdaLimit)
  }

  /** What a connector call does: return records, or raise. */
  datatype Outcome = Returned(items: seq<Item>) | Raised

  /** The records with the run's specialty and subcategory set. */
  function Tagged(items: seq<Item>, specialty: string, subcategory: string): (r: seq<Item>)
    ensures |r| == |items|
  {
    seq(|items|, i requires 0 <= i < |items| => items[i].(specialty := specialty, subcategory := subcategory))
  }

  /** The records one call adds: a call that raises adds none. */
  function Contribution(c: Connector, specialty: string, subcategory: string, paperQuery: string, trialQuery: string,
                        o: RunOptions, fetch: Call -> Outcome): seq<Item> {
    match fetch(CallOf(c, paperQuery, trialQuery, o))
    case Returned(xs) => Tagged(xs, specialty, subcategory)
    case Raised => []
  }

  /** What each connector adds to a run's records. */
  function Contributions(specialty: string, subcategory: string, paperQuery: string, trialQuery: string,
                         o: RunOptions, fetch: Call -> Outcome): Connector -> seq<Item> {
    c => Contribution(c, specialty, subcategory, paperQuery, trialQuery, o, fetch)
  }

  /** The records a sequence of calls gathers, in call order. */
  function Gathered(plan: seq<Connector>, part: Connector -> seq<Item>): seq<Item>
    decreases |plan|
  {
    if plan == [] then [] else Gathered(plan[..|plan| - 1], part) + part(plan[|plan| - 1])
  }

  /** `check_timeout` raises at the k-th check: a budget is set and it has been exceeded. */
  predicate TimeoutAt(o: RunOptions, clock: nat -> real, k: nat) {
    o.maxRunSeconds != 0 && clock(k) > o.maxRunSeconds as real
  }

  /** The result of `_ingest_for_query`: the records, or the timeout that escaped it. */
  datatype Ingest = Ingested(items: seq<Item>) | IngestTimedOut

  /** Calling the connectors of `plan` in order, the k-th after the k-th check. */
  function IngestOver(plan: seq<Connector>, part: Connector -> seq<Item>, o: RunOptions, clock: nat -> real): Ingest {
    if exists k | 0 <= k < |plan| :: TimeoutAt(o, clock, k) then IngestTimedOut else Ingested(Gathered(plan, part))
  }

  function IngestOutcome(specialty: string, subcategory: string, paperQuery: string, trialQuery: string,
                         o: RunOptions, fetch: Call -> Outcome, clock: nat -> real): Ingest {
    IngestOver(Plan(o), Contributions(specialty, subcategory, paperQuery, trialQuery, o, fetch), o, clock)
  }

  /** The tagging loop after each call. */
  method TagItems(items: seq<Item>, specialty: string, subcategory: string) returns (tagged: seq<Item>)
    ensures tagged == Tagged(items, specialty, subcategory)
  {
    tagged := [];
    for i := 0 to |items|
      invariant tagged == Tagged(items[..i], specialty, subcategory)
    {
      tagged := tagged + [items[i].(specialty := specialty, subcategory := subcategory)];
    }
    assert items[..|items|] == items;
  }

  /** `_ingest_for_query`. */
  method IngestForQuery(specialty: string, subcategory: string, paperQuery: string, trialQuery: string,
                        o: RunOptions, fetch: Call -> Outcome, clock: nat -> real) returns (r: Ingest)
    ensures r == IngestOutcome(specialty, subcategory, paperQuery, trialQuery, o, fetch, clock)
  {
    r := IngestCalls(Plan(o), specialty, subcategory, paperQuery, trialQuery, o, fetch, clock);
  }

  /**
   * The loop of `_ingest_for_query`: before each planned call the timeout is checked (the
   * k-th call at the k-th check); a call that raises adds nothing and the later calls still run.
   */
  method IngestCalls(plan: seq<Connector>, specialty: string, subcategory: string, paperQuery: string, trialQuery: string,
                     o: RunOptions, fetch: Call -> Outcome, clock: nat -> real) returns (r: Ingest)
    ensures r == IngestOver(plan, Contributions(specialty, subcategory, paperQuery, trialQuery, o, fetch), o, clock)
  {
    ghost var part := Contributions(specialty, subcategory, paperQuery, trialQuery, o, fetch);
    var ingested: seq<Item> := [];
    for k := 0 to |plan|
      invariant ingested == Gathered(plan[..k], part)
      invariant forall j | 0 <= j < k :: !TimeoutAt(o, clock, j)
    {
      if TimeoutAt(o, clock, k) {
        return IngestTimedOut;
      }
      var tagged := CallConnector(plan[k], specialty, subcategory, paperQuery, trialQuery, o, fetch);
      assert plan[..k + 1][..k] == plan[..k];
      ingested := ingested + tagged;
    }
    assert plan[..|plan|] == plan;
    r := Ingested(ingested);
  }

  /** One guarded connector call: its records, tagged, or none if it raises. */
  method CallConnector(c: Connector, specialty: string, subcategory: string, paperQuery: string, trialQuery: string,
                       o: RunOptions, fetch: Call -> Outcome) returns (tagged: seq<Item>)
    ensures tagged == Contributions(specialty, subcategory, paperQuery, trialQuery, o, fetch)(c)
  {
    var out := fetch(CallOf(c, paperQuery, trialQuery, o));
    var got := if out.Returned? then out.items else [];
    tagged := TagItems(got, specialty, subcategory);
  }

  /** Gathering over two runs of calls is the two gatherings, one after the other. */
  lemma {:induction false} GatheredConcat(p: seq<Connector>, q: seq<Connector>, part: Connector -> seq<Item>)
    ensures Gathered(p + q, part) == Gathered(p, part) + Gathered(q, part)
    decreases |q|
  {
    if q == [] {
      assert p + q == p;
    } else {
      var q' := q[..|q| - 1];
      assert (p + q)[..|p + q| - 1] == p + q';
      assert (p + q)[|p + q| - 1] == q[|q| - 1];
      GatheredConcat(p, q', part);
    }
  }

  /**
   * Failure isolation: a call that raises contributes nothing and the calls before and after
   * it contribute as they would without it.
   */
  lemma RaisingCallIsolated(plan: seq<Connector>, i: nat, specialty: string, subcategory: string,
                            paperQuery: string, trialQuery: string, o: RunOptions, fetch: Call -> Outcome)
    requires i < |plan| && fetch(CallOf(plan[i], paperQuery, trialQuery, o)) == Raised
    ensures var part := Contributions(specialty, subcategory, paperQuery, trialQuery, o, fetch);
      Gathered(plan, part) == Gathered(plan[..i], part) + Gathered(plan[i + 1..], part)
  {
    var part := Contributions(specialty, subcategory, paperQuery, trialQuery, o, fetch);
    assert part(plan[i]) == [];
    SkippedCall(plan, i, part);
  }

  /** A call that contributes nothing can be dropped from the plan. */
  lemma SkippedCall(plan: seq<Connector>, i: nat, part: Connector -> seq<Item>)
    requires i < |plan| && part(plan[i]) == []
    ensures Gathered(plan, part) == Gathered(plan[..i], part) + Gathered(plan[i + 1..], part)
  {
    var front := plan[..i + 1];
    assert plan == front + plan[i + 1..];
    GatheredConcat(front, plan[i + 1..], part);
    assert front[..i] == plan[..i];
  }

  /** Every gathered record carries the run's specialty and subcategory. */
  lemma {:induction false} GatheredTagged(plan: seq<Connector>, specialty: string, subcategory: string,
                                          paperQuery: string, trialQuery: string, o: RunOptions, fetch: Call -> Outcome)
    ensures forall x | x in Gathered(plan, Contributions(specialty, subcategory, paperQuery, trialQuery, o, fetch)) ::
      x.specialty == specialty && x.subcategory == subcategory
    decreases |plan|
  {
    if plan != [] {
      GatheredTagged(plan[..|plan| - 1], specialty, subcategory, paperQuery, trialQuery, o, fetch);
    }
  }

  /**
   * A connector is called exactly when its source is enabled; RSS only when papers are also
   * enabled. Paper connectors get the paper query and trial connectors the trial query.
   */
  lemma PlanSpec(o: RunOptions)
    ensures PubMed in Plan(o) <==> o.includePapers
    ensures EuropePmcPapers in Plan(o) <==> o.includePapers
    ensures JournalRss in Plan(o) <==> o.includePapers && o.includeJournalRss
    ensures Preprints in Plan(o) <==> o.includePreprints
    ensures EuropePmcPreprints in Plan(o) <==> o.includePreprints
    ensures ClinicalTrials in Plan(o) <==> o.includeTrials
    ensures Fda in Plan(o) <==> o.includeFdaApprovals
  {
  }

  /** Paper connectors get the paper query and trial connectors the trial query. */
  lemma QueryRouting(c: Connector, paperQuery: string, trialQuery: string, o: RunOptions)
    ensures CallOf(c, paperQuery, trialQuery, o).query == if c == ClinicalTrials || c == Fda then trialQuery else paperQuery
    ensures CallOf(c, paperQuery, trialQuery, o).daysBack == if c == JournalRss || c == ClinicalTrials then None else Some(o.daysBack)
  {
  }

  /** Without a timeout, ingestion gathers every planned call's records. */
  lemma IngestWithoutTimeout(specialty: string, subcategory: string, paperQuery: string, trialQuery: string,
                             o: RunOptions, fetch: Call -> Outcome, clock: nat -> real)
    requires o.maxRunSeconds == 0
    ensures IngestOutcome(specialty, subcategory, paperQuery, trialQuery, o, fetch, clock)
      == Ingested(Gathered(Plan(o), Contributions(specialty, subcategory, paperQuery, trialQuery, o, fetch)))
  {
  }

  // ---------------------------------------------------------------- finalisation

  /**
   * What finalisation learns from outside: the SHA-1 digest, the full-text lookups and cache
   * freshness, the citation cache's age measure and the OpenAlex responses for a record, the
   * Semantic Scholar answer for a PMID, the citation bonus, the summary's pattern matches and
   * language-model reply for a record, the key, and the time stamped on rows.
   */
  datatype Env = Env(
    sha1Hex: string -> string,
    fullText: Item -> FullTextOa.Lookups, fullTextTtlDays: int, fullTextAgeDays: string -> Option<real>,
    citationAgeDays: string -> Option<real>, openAlex: Item -> seq<OpenAlex.Response>,
    semanticScholar: Option<string> -> Option<int>,
    bonus: (int, real) -> int,
    matches: Item -> Summarize.Matches, apiKey: string, llmReply: Item -> Option<string>,
    now: string)

  /** The record's fingerprint, mode and cleared full-text fields, as the loop first sets them. */
  function Stamped(item: Item, o: RunOptions, env: Env): Item {
    item.(fingerprint := Some(Dedup.FingerprintItem(item, env.sha1Hex)), modeName := Some(o.modeName),
          fullTextSource := None, supportSnippets := [])
  }

  /** The open-access full text, for PubMed and Europe PMC records when the option is on. */
  function WithFullText(item: Item, o: RunOptions, env: Env): Item {
    if o.useFullTextOa && (item.source == "pubmed" || item.source == "europepmc") then
      FullTextOa.Enriched(item, env.fullText(item), env.fullTextTtlDays, env.fullTextAgeDays).0
    else item
  }

  /** The citation count and its source, and the citation cache afterwards. */
  function Cited(item: Item, o: RunOptions, env: Env, cache: map<string, Db.CitationRow>): (Item, map<string, Db.CitationRow>) {
    if !o.enrichCitations then (item.(citations := None, citationsSource := None), cache)
    else
      var key := OpenAlex.DoiKey(item.doi);
      var (fromOpenAlex, cache') :=
        if key.None? then (None, cache) else OpenAlex.Citations(cache, key.value, env.citationAgeDays, env.openAlex(item), env.now);
      if fromOpenAlex.Some? then (item.(citations := fromOpenAlex, citationsSource := Some("openalex")), cache')
      else if !o.enableSemanticScholar then (item.(citations := None, citationsSource := None), cache')
      else
        var fromS2 := env.semanticScholar(item.pmid);
        (item.(citations := fromS2, citationsSource := if fromS2.Some? then Some("semantic_scholar") else None), cache')
  }

  /** The record with its score and explanation. */
  function Scored(item: Item, rules: Scoring.PackRules, o: RunOptions, env: Env): Item {
    var hits := Scoring.ScoreHits(item, rules, Scoring.Weights(o.scoringWeights), env.bonus);
    item.(score := Scoring.Total(hits), scoreExplain := Scoring.Texts(hits))
  }

  /** The record with its summary. */
  function Summarized(item: Item, o: RunOptions, env: Env): Item {
    item.(summaryText := Some(Summarize.SummarizeItem(item, o.llmPolishSummary, env.matches(item), env.apiKey, env.llmReply(item))))
  }

  /** The record the loop stores for `item`, and the citation cache afterwards. */
  function Prepared(item: Item, o: RunOptions, rules: Scoring.PackRules, env: Env, cache: map<string, Db.CitationRow>)
    : (Item, map<string, Db.CitationRow>)
  {
    var (cited, cache') := Cited(WithFullText(Stamped(item, o, env), o, env), o, env, cache);
    (Summarized(Scored(cited, rules, o, env), o, env), cache')
  }

  /** The parts of the store a run writes besides the ledger. */
  datatype Tables = Tables(items: seq<Db.ItemRow>, nextItemId: int, cache: map<string, Db.CitationRow>)

  /** How a record is prepared: the record and the citation cache in, the record to store and the cache out. */
  type Prep = (Item, map<string, Db.CitationRow>) -> (Item, map<string, Db.CitationRow>)

  /** The preparation the finalize loop applies. */
  function Preparation(o: RunOptions, rules: Scoring.PackRules, env: Env): Prep {
    (item, cache) => Prepared(item, o, rules, env, cache)
  }

  /**
   * `prep` prepares records as the finalize loop does. The equation is only instantiated
   * where a record is actually prepared, so the loop's reasoning need not unfold it.
   */
  ghost predicate Prepares(prep: Prep, o: RunOptions, rules: Scoring.PackRules, env: Env) {
    forall item, cache {:trigger Prepared(item, o, rules, env, cache)} :: prep(item, cache) == Prepared(item, o, rules, env, cache)
  }

  /** The tables after one record is prepared and upserted under the fingerprint it was stamped with. */
  function Step(t: Tables, item: Item, prep: Prep, env: Env): Tables {
    var (it, cache') := prep(item, t.cache);
    var fp := Dedup.FingerprintItem(item, env.sha1Hex);
    Tables(Db.Upserted(t.items, t.nextItemId, it, fp, env.now),
           if Db.Lookup(t.items, fp).Some? then t.nextItemId else t.nextItemId + 1, cache')
  }

  /** How the tables change as one record is processed. */
  type Update = (Tables, Item) -> Tables

  /** The update the finalize loop applies: `Step` with the given preparation. */
  function Storing(prep: Prep, env: Env): Update {
    (t, item) => Step(t, item, prep, env)
  }

  /**
   * `update` is `Step` with `prep`; as with `Prepares`, the equation is only instantiated
   * where a record is actually stored.
   */
  ghost predicate Stores(update: Update, prep: Prep, env: Env) {
    forall t, item {:trigger Step(t, item, prep, env)} :: update(t, item) == Step(t, item, prep, env)
  }

  /** The tables after the records are processed in order. */
  function Persisted(t: Tables, xs: seq<Item>, update: Update): Tables
    decreases |xs|
  {
    if xs == [] then t else update(Persisted(t, xs[..|xs| - 1], update), xs[|xs| - 1])
  }

  /** The records finalisation works through: the filtered, deduplicated list. */
  function Unique(ingested: seq<Item>, o: RunOptions, env: Env): seq<Item> {
    Dedup.DedupFrom(ApplyFilters(ingested, o), {}, env.sha1Hex)
  }

  /** How many of `n` records are processed before the first failed check from check `base` on. */
  function Kept(o: RunOptions, clock: nat -> real, base: nat, n: nat, from: nat): (m: nat)
    requires from <= n
    ensures from <= m <= n
    decreases n - from
  {
    if from == n then n else if TimeoutAt(o, clock, base + from) then from else Kept(o, clock, base, n, from + 1)
  }

  /** None of the `m` checks from check `base` on times out. */
  predicate Clear(o: RunOptions, clock: nat -> real, base: nat, m: nat) {
    m == 0 || (Clear(o, clock, base, m - 1) && !TimeoutAt(o, clock, base + m - 1))
  }

  /** The processed count is `m` when the `m` checks from `base` pass and the next one, if any, fails. */
  lemma {:induction false} KeptIs(o: RunOptions, clock: nat -> real, base: nat, n: nat, from: nat, m: nat)
    requires from <= m <= n
    requires Clear(o, clock, base, m)
    requires m < n ==> TimeoutAt(o, clock, base + m)
    ensures Kept(o, clock, base, n, from) == m
    decreases n - from
  {
    if from < m {
      ClearBefore(o, clock, base, m, from);
      KeptIs(o, clock, base, n, from + 1, m);
    }
  }

  /** A clear run of checks passes each of its checks. */
  lemma {:induction false} ClearBefore(o: RunOptions, clock: nat -> real, base: nat, m: nat, j: nat)
    requires Clear(o, clock, base, m) && j < m
    ensures !TimeoutAt(o, clock, base + j)
    decreases m
  {
    if j < m - 1 {
      ClearBefore(o, clock, base, m - 1, j);
    }
  }

  /** The processed count stops at the first check that times out, and only there. */
  lemma {:induction false} KeptSpec(o: RunOptions, clock: nat -> real, base: nat, n: nat, from: nat)
    requires from <= n
    ensures forall k | base + from <= k < base + Kept(o, clock, base, n, from) :: !TimeoutAt(o, clock, k)
    ensures Kept(o, clock, base, n, from) < n ==> TimeoutAt(o, clock, base + Kept(o, clock, base, n, from))
    decreases n - from
  {
    if from < n && !TimeoutAt(o, clock, base + from) {
      KeptSpec(o, clock, base, n, from + 1);
    }
  }

  /** What a run reports. */
  datatype RunSummary = RunSummary(runId: int, status: string, ingestedCount: int, dedupedCount: int, timedOut: bool)

  /** The report of `_finalize_items`. */
  function Finalized(runId: int, ingested: seq<Item>, o: RunOptions, env: Env, clock: nat -> real, base: nat): RunSummary {
    var n := |Unique(ingested, o, env)|;
    var kept := Kept(o, clock, base, n, 0);
    RunSummary(runId, if kept < n then "timeout" else "success", |ingested|, kept, kept < n)
  }

  /** The full-text stage of the loop. */
  method AddFullText(item: Item, o: RunOptions, env: Env) returns (out: Item)
    ensures out == WithFullText(item, o, env)
    ensures out.fingerprint == item.fingerprint && out.modeName == item.modeName
  {
    out := item;
    if o.useFullTextOa && (item.source == "pubmed" || item.source == "europepmc") {
      var write;
      out, write := FullTextOa.EnrichItemFromOaFullText(item, env.fullText(item), env.fullTextTtlDays, env.fullTextAgeDays);
      FullTextOa.EnrichedTouchesFullTextOnly(item, env.fullText(item), env.fullTextTtlDays, env.fullTextAgeDays);
    }
  }

  /** The citation stage of the loop: OpenAlex through the cache, then Semantic Scholar if enabled. */
  method AddCitations(store: Db.Store, item: Item, o: RunOptions, env: Env) returns (out: Item)
    requires store.Valid()
    modifies store
    ensures store.Valid()
    ensures (out, store.citationCache) == Cited(item, o, env, old(store.citationCache))
    ensures out.fingerprint == item.fingerprint && out.modeName == item.modeName
    ensures store.items == old(store.items) && store.notes == old(store.notes) && store.runs == old(store.runs)
    ensures store.topics == old(store.topics) && store.nextItemId == old(store.nextItemId)
    ensures store.nextNoteId == old(store.nextNoteId) && store.nextRunId == old(store.nextRunId)
  {
    if !o.enrichCitations {
      return item.(citations := None, citationsSource := None);
    }
    var citations := OpenAlex.GetCitations(store, item.doi, env.citationAgeDays, env.openAlex(item), env.now);
    var source: Option<string> := if citations.Some? then Some("openalex") else None;
    if citations.None? && o.enableSemanticScholar {
      citations := env.semanticScholar(item.pmid);
      if citations.Some? {
        source := Some("semantic_scholar");
      }
    }
    out := item.(citations := citations, citationsSource := source);
  }

  /** Every stage of the loop before the upsert; the record keeps the fingerprint and mode it was stamped with. */
  method PrepareItem(store: Db.Store, item: Item, o: RunOptions, rules: Scoring.PackRules, env: Env, ghost prep: Prep)
    returns (out: Item)
    requires store.Valid() && Prepares(prep, o, rules, env)
    modifies store
    ensures store.Valid()
    ensures (out, store.citationCache) == prep(item, old(store.citationCache))
    ensures out.fingerprint == Some(Dedup.FingerprintItem(item, env.sha1Hex)) && out.modeName == Some(o.modeName)
    ensures store.items == old(store.items) && store.notes == old(store.notes) && store.runs == old(store.runs)
    ensures store.topics == old(store.topics) && store.nextItemId == old(store.nextItemId)
    ensures store.nextNoteId == old(store.nextNoteId) && store.nextRunId == old(store.nextRunId)
  {
    ghost var cache0 := store.citationCache;
    var it := AddFullText(Stamped(item, o, env), o, env);
    it := AddCitations(store, it, o, env);
    it := Scoring.ScoreAndAttach(it, rules, o.scoringWeights, env.bonus);
    out := it.(summaryText := Some(Summarize.SummarizeItem(it, o.llmPolishSummary, env.matches(it), env.apiKey, env.llmReply(it))));
    assert (out, store.citationCache) == Prepared(item, o, rules, env, cache0);
  }

  /** The body of the finalize loop for one record. */
  method ProcessItem(store: Db.Store, item: Item, o: RunOptions, rules: Scoring.PackRules, env: Env, ghost prep: Prep)
    requires store.Valid() && Prepares(prep, o, rules, env)
    modifies store
    ensures store.Valid()
    ensures Tables(store.items, store.nextItemId, store.citationCache)
      == Step(Tables(old(store.items), old(store.nextItemId), old(store.citationCache)), item, prep, env)
    ensures store.runs == old(store.runs) && store.notes == old(store.notes) && store.topics == old(store.topics)
    ensures store.nextNoteId == old(store.nextNoteId) && store.nextRunId == old(store.nextRunId)
  {
    var prepared := PrepareItem(store, item, o, rules, env, prep);
    var itemId := store.UpsertItem(prepared, env.now);
  }

  /**
   * `_finalize_items`: filter, deduplicate, then process records until a check times out;
   * the run is finished as `timeout` or `success` with the pre-filter count and the number
   * stored.
   */
  method FinalizeItems(store: Db.Store, runId: int, ingested: seq<Item>, rules: Scoring.PackRules, o: RunOptions,
                       env: Env, clock: nat -> real, base: nat) returns (summary: RunSummary)
    requires store.Valid()
    modifies store
    ensures store.Valid()
    ensures summary == Finalized(runId, ingested, o, env, clock, base)
    ensures Tables(store.items, store.nextItemId, store.citationCache)
      == Persisted(Tables(old(store.items), old(store.nextItemId), old(store.citationCache)),
                   Unique(ingested, o, env)[..summary.dedupedCount], Storing(Preparation(o, rules, env), env))
    ensures store.runs == Db.Finished(old(store.runs), runId, summary.status, |ingested|, summary.dedupedCount, None, env.now)
    ensures store.notes == old(store.notes) && store.topics == old(store.topics)
    ensures store.nextNoteId == old(store.nextNoteId) && store.nextRunId == old(store.nextRunId)
  {
    var filtered := ApplyFilters(ingested, o);
    var unique := Dedup.Deduplicate(filtered, env.sha1Hex);
    var persisted := ProcessUntilTimeout(store, unique, rules, o, env, clock, base, Preparation(o, rules, env),
                                         Storing(Preparation(o, rules, env), env));
    var timedOut := persisted < |unique|;
    var status := if timedOut then "timeout" else "success";
    store.FinishRun(runId, status, |ingested|, persisted, None, env.now);
    summary := RunSummary(runId, status, |ingested|, persisted, timedOut);
  }

  /** The loop of `_finalize_items`: the number of records stored before a check timed out. */
  method ProcessUntilTimeout(store: Db.Store, unique: seq<Item>, rules: Scoring.PackRules, o: RunOptions,
                             env: Env, clock: nat -> real, base: nat, ghost prep: Prep, ghost update: Update)
    returns (persisted: nat)
    requires store.Valid() && Prepares(prep, o, rules, env) && Stores(update, prep, env)
    modifies store
    ensures store.Valid()
    ensures persisted == Kept(o, clock, base, |unique|, 0)
    ensures Tables(store.items, store.nextItemId, store.citationCache)
      == Persisted(Tables(old(store.items), old(store.nextItemId), old(store.citationCache)), unique[..persisted], update)
    ensures store.runs == old(store.runs) && store.notes == old(store.notes) && store.topics == old(store.topics)
    ensures store.nextNoteId == old(store.nextNoteId) && store.nextRunId == old(store.nextRunId)
  {
    ghost var t0 := Tables(store.items, store.nextItemId, store.citationCache);
    persisted := 0;
    var done := false;
    while !done
      invariant persisted <= |unique| && Clear(o, clock, base, persisted)
      invariant done ==> persisted == |unique| || TimeoutAt(o, clock, base + persisted)
      invariant store.Valid()
      invariant Tables(store.items, store.nextItemId, store.citationCache) == Persisted(t0, unique[..persisted], update)
      invariant store.runs == old(store.runs) && store.notes == old(store.notes) && store.topics == old(store.topics)
      invariant store.nextNoteId == old(store.nextNoteId) && store.nextRunId == old(store.nextRunId)
      decreases |unique| - persisted + (if done then 0 else 1)
    {
      persisted, done := Advance(store, unique, persisted, rules, o, env, clock, base, prep, update, t0);
    }
    KeptIs(o, clock, base, |unique|, 0, persisted);
  }

  /** One turn of the finalize loop: stop at the end or on a failed check, else store the next record. */
  method Advance(store: Db.Store, unique: seq<Item>, persisted: nat, rules: Scoring.PackRules, o: RunOptions,
                 env: Env, clock: nat -> real, base: nat, ghost prep: Prep, ghost update: Update, ghost t0: Tables)
    returns (next: nat, done: bool)
    requires store.Valid() && Prepares(prep, o, rules, env) && Stores(update, prep, env)
    requires persisted <= |unique| && Clear(o, clock, base, persisted)
    requires Tables(store.items, store.nextItemId, store.citationCache) == Persisted(t0, unique[..persisted], update)
    modifies store
    ensures store.Valid()
    ensures next <= |unique| && Clear(o, clock, base, next)
    ensures done ==> next == persisted && (next == |unique| || TimeoutAt(o, clock, base + next))
    ensures !done ==> next == persisted + 1
    ensures Tables(store.items, store.nextItemId, store.citationCache) == Persisted(t0, unique[..next], update)
    ensures store.runs == old(store.runs) && store.notes == old(store.notes) && store.topics == old(store.topics)
    ensures store.nextNoteId == old(store.nextNoteId) && store.nextRunId == old(store.nextRunId)
  {
    done := Stop(unique, persisted, o, clock, base);
    if done {
      next := persisted;
    } else {
      PersistNext(store, unique, persisted, rules, o, env, prep, update, t0);
      next := persisted + 1;
    }
  }

  /** The check at the head of the finalize loop: the list is exhausted or the run is out of time. */
  method Stop(unique: seq<Item>, persisted: nat, o: RunOptions, clock: nat -> real, base: nat) returns (stop: bool)
    requires persisted <= |unique| && Clear(o, clock, base, persisted)
    ensures stop <==> persisted == |unique| || TimeoutAt(o, clock, base + persisted)
    ensures !stop ==> persisted < |unique| && Clear(o, clock, base, persisted + 1)
  {
    stop := persisted == |unique| || TimeoutAt(o, clock, base + persisted);
  }

  /** Storing the next record extends the stored prefix by one. */
  method PersistNext(store: Db.Store, unique: seq<Item>, persisted: nat, rules: Scoring.PackRules, o: RunOptions,
                     env: Env, ghost prep: Prep, ghost update: Update, ghost t0: Tables)
    requires store.Valid() && Prepares(prep, o, rules, env) && Stores(update, prep, env) && persisted < |unique|
    requires Tables(store.items, store.nextItemId, store.citationCache) == Persisted(t0, unique[..persisted], update)
    modifies store
    ensures store.Valid()
    ensures Tables(store.items, store.nextItemId, store.citationCache) == Persisted(t0, unique[..persisted + 1], update)
    ensures store.runs == old(store.runs) && store.notes == old(store.notes) && store.topics == old(store.topics)
    ensures store.nextNoteId == old(store.nextNoteId) && store.nextRunId == old(store.nextRunId)
  {
    assert unique[..persisted + 1][..persisted] == unique[..persisted];
    ProcessItem(store, unique[persisted], o, rules, env, prep);
  }

  /** Finalisation stores at most as many records as the filtered, deduplicated list holds, which is no more than were ingested. */
  lemma FinalizedCounts(runId: int, ingested: seq<Item>, o: RunOptions, env: Env, clock: nat -> real, base: nat)
    ensures var s := Finalized(runId, ingested, o, env, clock, base);
      && s.dedupedCount <= |Unique(ingested, o, env)| <= |ingested|
      && s.ingestedCount == |ingested|
      && (s.status == "timeout" <==> s.timedOut)
      && (s.status == "success" <==> !s.timedOut)
      && (s.timedOut <==> exists k | base <= k < base + |Unique(ingested, o, env)| :: TimeoutAt(o, clock, k))
  {
    var n := |Unique(ingested, o, env)|;
    KeptSpec(o, clock, base, n, 0);
    ApplyFiltersSpec(ingested, o);
    Dedup.DedupNoLonger(ApplyFilters(ingested, o), {}, env.sha1Hex);
  }

  /** One step keeps the item table well formed, stores the record under its fingerprint and loses no fingerprint. */
  lemma StepFindable(t: Tables, item: Item, prep: Prep, env: Env)
    requires Db.ItemsValid(t.items, t.nextItemId)
    ensures var t' := Step(t, item, prep, env);
      && Db.ItemsValid(t'.items, t'.nextItemId)
      && Db.Lookup(t'.items, Dedup.FingerprintItem(item, env.sha1Hex)).Some?
      && forall g | Db.Lookup(t.items, g).Some? :: Db.Lookup(t'.items, g).Some?
  {
    var (it, cache') := prep(item, t.cache);
    Db.UpsertSpec(t.items, t.nextItemId, it, Dedup.FingerprintItem(item, env.sha1Hex), env.now);
  }

  /** Every record processed is stored under its fingerprint afterwards. */
  lemma {:induction false} PersistedFindable(t: Tables, xs: seq<Item>, update: Update, prep: Prep, env: Env)
    requires Db.ItemsValid(t.items, t.nextItemId) && Stores(update, prep, env)
    ensures Db.ItemsValid(Persisted(t, xs, update).items, Persisted(t, xs, update).nextItemId)
    ensures forall x | x in xs :: Db.Lookup(Persisted(t, xs, update).items, Dedup.FingerprintItem(x, env.sha1Hex)).Some?
    ensures forall g | Db.Lookup(t.items, g).Some? :: Db.Lookup(Persisted(t, xs, update).items, g).Some?
    decreases |xs|
  {
    if xs != [] {
      var init := xs[..|xs| - 1];
      var last := xs[|xs| - 1];
      var p := Persisted(t, init, update);
      PersistedFindable(t, init, update, prep, env);
      StepFindable(p, last, prep, env);
      var q := Persisted(t, xs, update);
      assert q == update(p, last) == Step(p, last, prep, env);
      forall x | x in xs
        ensures Db.Lookup(q.items, Dedup.FingerprintItem(x, env.sha1Hex)).Some?
      {
        if x != last {
          assert xs == init + [last];
          assert x in init;
          assert Db.Lookup(p.items, Dedup.FingerprintItem(x, env.sha1Hex)).Some?;
        }
      }
      forall g | Db.Lookup(t.items, g).Some?
        ensures Db.Lookup(q.items, g).Some?
      {
        assert Db.Lookup(p.items, g).Some?;
      }
    }
  }

  // ---------------------------------------------------------------- runs

  /** A pack lookup: the pack's rules and queries, or the error `get_pack` raises. */
  datatype PackLookup = PackFound(rules: Scoring.PackRules, pubmedQuery: string, trialsQuery: string) | PackMissing(message: string)

  /** A run's end: a report, or the exception re-raised after the run is marked failed. */
  datatype RunResult = Completed(summary: RunSummary) | Failed(runId: int, message: string)

  /** The text of the `TimeoutError`. */
  function TimeoutMessage(seconds: int): string {
    "Timed out after " + IntToString(seconds) + "s"
  }

  /** The window a run resolves from the ledger before it starts. */
  function ResolvedWindow(runs: seq<Db.RunRow>, specialty: string, subcategory: string, o: RunOptions,
                          elapsedDays: string -> Option<real>): int {
    if o.forceFullRefresh then o.daysBack
    else WindowDays(o, Db.LatestSuccess(runs, specialty, subcategory, Some(o.modeName), Some(SourcesKey(o))), elapsedDays)
  }

  /** The ledger row a run starts with. */
  function StartedRun(runId: int, specialty: string, subcategory: string, eff: RunOptions, now: string): Db.RunRow {
    Db.NewRun(runId, specialty, subcategory, Some(eff.modeName), Some(SourcesKey(eff)), Some(eff.daysBack), eff.forceFullRefresh, now)
  }

  /** The records finalisation is given: all ingested ones, or the relevant ones of a search. */
  function Candidates(items: seq<Item>, relevance: Option<QueryContext>): seq<Item> {
    if relevance.None? then items else Filter(items, Relevant(relevance.value))
  }

  /** `_is_search_relevant` as a value, named so that every use is the same function. */
  function Relevant(ctx: QueryContext): Item -> bool {
    item => IsSearchRelevant(item, ctx)
  }

  /**
   * The shared body of both entry points, after the run is created: ingest; on a timeout
   * during ingestion finish the run as `timeout` with zero counts and store nothing;
   * otherwise (after the relevance filter of a search) finalise.
   */
  method IngestAndFinalize(store: Db.Store, runId: int, specialty: string, subcategory: string,
                           paperQuery: string, trialQuery: string, rules: Scoring.PackRules, eff: RunOptions,
                           relevance: Option<QueryContext>, fetch: Call -> Outcome, clock: nat -> real, env: Env)
    returns (summary: RunSummary)
    requires store.Valid()
    modifies store
    ensures store.Valid()
    ensures match IngestOutcome(specialty, subcategory, paperQuery, trialQuery, eff, fetch, clock)
      case IngestTimedOut =>
        && summary == RunSummary(runId, "timeout", 0, 0, true)
        && store.items == old(store.items) && store.nextItemId == old(store.nextItemId)
        && store.citationCache == old(store.citationCache)
        && store.runs == Db.Finished(old(store.runs), runId, "timeout", 0, 0, Some(TimeoutMessage(eff.maxRunSeconds)), env.now)
      case Ingested(raw) =>
        var xs := Candidates(raw, relevance);
        && summary == Finalized(runId, xs, eff, env, clock, |Plan(eff)|)
        && Tables(store.items, store.nextItemId, store.citationCache)
          == Persisted(Tables(old(store.items), old(store.nextItemId), old(store.citationCache)),
                       Unique(xs, eff, env)[..summary.dedupedCount], Storing(Preparation(eff, rules, env), env))
        && store.runs == Db.Finished(old(store.runs), runId, summary.status, |xs|, summary.dedupedCount, None, env.now)
    ensures store.notes == old(store.notes) && store.topics == old(store.topics)
    ensures store.nextNoteId == old(store.nextNoteId) && store.nextRunId == old(store.nextRunId)
  {
    var ingest := IngestForQuery(specialty, subcategory, paperQuery, trialQuery, eff, fetch, clock);
    if ingest.IngestTimedOut? {
      store.FinishRun(runId, "timeout", 0, 0, Some(TimeoutMessage(eff.maxRunSeconds)), env.now);
      return RunSummary(runId, "timeout", 0, 0, true);
    }
    var ingested := ingest.items;
    if relevance.Some? {
      ingested := Filter(ingested, Relevant(relevance.value));
    }
    summary := FinalizeItems(store, runId, ingested, rules, eff, env, clock, |Plan(eff)|);
  }

  /**
   * `run_pipeline`: resolve the window, create the run, load the pack, ingest and finalise.
   * A missing pack marks the run failed and is re-raised; a timeout during ingestion reports
   * zero counts and stores nothing.
   */
  method RunPipeline(store: Db.Store, specialty: string, subcategory: string, o: RunOptions, pack: PackLookup,
                     fetch: Call -> Outcome, clock: nat -> real, elapsedDays: string -> Option<real>, env: Env)
    returns (r: RunResult)
    requires store.Valid()
    modifies store
    ensures store.Valid()
    ensures var eff := o.(daysBack := ResolvedWindow(old(store.runs), specialty, subcategory, o, elapsedDays));
      var runId := old(store.nextRunId);
      var started := old(store.runs) + [StartedRun(runId, specialty, subcategory, eff, env.now)];
      match pack
      case PackMissing(msg) =>
        && r == Failed(runId, msg)
        && store.items == old(store.items) && store.nextItemId == old(store.nextItemId)
        && store.citationCache == old(store.citationCache)
        && store.runs == Db.Finished(started, runId, "failed", 0, 0, Some(msg), env.now)
      case PackFound(rules, paperQuery, trialQuery) =>
        match IngestOutcome(specialty, subcategory, paperQuery, trialQuery, eff, fetch, clock)
        case IngestTimedOut =>
          && r == Completed(RunSummary(runId, "timeout", 0, 0, true))
          && store.items == old(store.items) && store.nextItemId == old(store.nextItemId)
          && store.citationCache == old(store.citationCache)
          && store.runs == Db.Finished(started, runId, "timeout", 0, 0, Some(TimeoutMessage(eff.maxRunSeconds)), env.now)
        case Ingested(raw) =>
          && r == Completed(Finalized(runId, raw, eff, env, clock, |Plan(eff)|))
          && Tables(store.items, store.nextItemId, store.citationCache)
            == Persisted(Tables(old(store.items), old(store.nextItemId), old(store.citationCache)),
                         Unique(raw, eff, env)[..r.summary.dedupedCount], Storing(Preparation(eff, rules, env), env))
          && store.runs == Db.Finished(started, runId, r.summary.status, |raw|, r.summary.dedupedCount, None, env.now)
    ensures store.notes == old(store.notes) && store.topics == old(store.topics)
    ensures store.nextRunId == old(store.nextRunId) + 1 && store.nextNoteId == old(store.nextNoteId)
  {
    var days, last := ResolveIncrementalDaysBack(store, specialty, subcategory, o, elapsedDays);
    var eff := o.(daysBack := days);
    var key := BuildSourcesKey(eff);
    var runId := store.CreateRun(specialty, subcategory, Some(eff.modeName), Some(key), Some(days), eff.forceFullRefresh, env.now);
    match pack
    case PackMissing(msg) =>
      store.FinishRun(runId, "failed", 0, 0, Some(msg), env.now);
      r := Failed(runId, msg);
    case PackFound(rules, paperQuery, trialQuery) =>
      var summary := IngestAndFinalize(store, runId, specialty, subcategory, paperQuery, trialQuery, rules, eff, None, fetch, clock, env);
      r := Completed(summary);
  }

  /** The blank-query report of `run_pipeline_query`. */
  const BlankQueryReport: RunSummary := RunSummary(-1, "failed", 0, 0, false)

  /** The rules of a search: the default rules, the keywords as include terms, and the query context. */
  function SearchRules(queryText: string, bundle: Nlp.SearchQueries): Scoring.PackRules {
    DefaultRules().(includeTerms := bundle.keywords, queryContext := Some(SearchContext(queryText, bundle)))
  }

  function SearchContext(queryText: string, bundle: Nlp.SearchQueries): QueryContext {
    QueryContext(rawQuery := Some(queryText), concepts := AsGroups(bundle.concepts), keywords := bundle.keywords)
  }

  function AsGroups(groups: seq<seq<string>>): (r: seq<ConceptEntry>)
    ensures |r| == |groups| && forall k | 0 <= k < |groups| :: r[k] == Group(groups[k])
  {
    seq(|groups|, k requires 0 <= k < |groups| => Group(groups[k]))
  }

  /**
   * `run_pipeline_query`: a blank query reports failure and touches nothing; otherwise the
   * search scope's records are cleared before the run is created, the query is expanded,
   * and the relevant ingested records are finalised. `stop` and `table` are the stopword
   * set and concept table of query expansion and `fired` says which concept patterns match.
   */
  method RunPipelineQuery(store: Db.Store, query: string, o: RunOptions, stop: set<string>, table: seq<seq<string>>,
                          fired: seq<bool>, fetch: Call -> Outcome, clock: nat -> real,
                          elapsedDays: string -> Option<real>, env: Env)
    returns (r: RunResult)
    requires store.Valid() && |fired| == |table|
    modifies store
    ensures store.Valid()
    ensures Strip(query) == "" ==>
      && r == Completed(BlankQueryReport)
      && store.items == old(store.items) && store.notes == old(store.notes) && store.runs == old(store.runs)
      && store.citationCache == old(store.citationCache) && store.nextRunId == old(store.nextRunId)
      && store.nextItemId == old(store.nextItemId) && store.nextNoteId == old(store.nextNoteId)
    ensures Strip(query) != "" ==>
      var sub := QueryKey(Strip(query));
      var eff := o.(daysBack := ResolvedWindow(old(store.runs), "search", subcategory := sub, o := o, elapsedDays := elapsedDays));
      var runId := old(store.nextRunId);
      var bundle := Nlp.SearchQueriesOf(Strip(query), stop, table, fired);
      var paperQuery := if bundle.paperQuery != "" then bundle.paperQuery else Strip(query);
      var trialQuery := if bundle.trialQuery != "" then bundle.trialQuery else Strip(query);
      var cleared := Db.OutOfScope(old(store.items), "search", sub);
      var started := old(store.runs) + [StartedRun(runId, "search", sub, eff, env.now)];
      && store.notes == Db.NotesKept(old(store.notes), Db.ScopeIds(old(store.items), "search", sub))
      && store.nextRunId == old(store.nextRunId) + 1 && store.nextNoteId == old(store.nextNoteId)
      && match IngestOutcome("search", sub, paperQuery, trialQuery, eff, fetch, clock)
        case IngestTimedOut =>
          && r == Completed(RunSummary(runId, "timeout", 0, 0, true))
          && store.items == cleared && store.nextItemId == old(store.nextItemId)
          && store.citationCache == old(store.citationCache)
          && store.runs == Db.Finished(started, runId, "timeout", 0, 0, Some(TimeoutMessage(eff.maxRunSeconds)), env.now)
        case Ingested(raw) =>
          var xs := Filter(raw, Relevant(SearchContext(Strip(query), bundle)));
          && r == Completed(Finalized(runId, xs, eff, env, clock, |Plan(eff)|))
          && Tables(store.items, store.nextItemId, store.citationCache)
            == Persisted(Tables(cleared, old(store.nextItemId), old(store.citationCache)),
                         Unique(xs, eff, env)[..r.summary.dedupedCount], Storing(Preparation(eff, SearchRules(Strip(query), bundle), env), env))
          && store.runs == Db.Finished(started, runId, r.summary.status, |xs|, r.summary.dedupedCount, None, env.now)
    ensures store.topics == old(store.topics)
  {
    var queryText := Strip(query);
    if queryText == "" {
      return Completed(BlankQueryReport);
    }
    var specialty := "search";
    var subcategory := QueryKey(queryText);
    var days, last := ResolveIncrementalDaysBack(store, specialty, subcategory, o, elapsedDays);
    var eff := o.(daysBack := days);
    store.ClearScopeItems(specialty, subcategory);
    var key := BuildSourcesKey(eff);
    var runId := store.CreateRun(specialty, subcategory, Some(eff.modeName), Some(key), Some(days), eff.forceFullRefresh, env.now);
    var bundle := Nlp.BuildSearchQueries(queryText, stop, table, fired);
    var paperQuery := if bundle.paperQuery != "" then bundle.paperQuery else queryText;
    var trialQuery := if bundle.trialQuery != "" then bundle.trialQuery else queryText;
    var rules := SearchRules(queryText, bundle);
    var summary := IngestAndFinalize(store, runId, specialty, subcategory, paperQuery, trialQuery, rules, eff,
                                     Some(SearchContext(queryText, bundle)), fetch, clock, env);
    r := Completed(summary);
  }
}
