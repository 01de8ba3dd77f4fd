/**
 * The record every connector produces and every later stage enriches: one paper,
 * trial, preprint, journal item or FDA update. Fields a connector does not set
 * take their defaults, as a missing key of the source's dictionaries does.
 */
module Records {
  import opened Wrappers

  datatype Item = Item(
    source: string := "",
    title: string := "",
    url: Option<string> := None,
    publishedAt: Option<string> := None,
    updatedAt: Option<string> := None,
    pmid: Option<string> := None,
    doi: Option<string> := None,
    nctId: Option<string> := None,
    pmcid: Option<string> := None,
    venue: Option<string> := None,
    authors: Option<string> := None,
    abstractOrText: Option<string> := None,
    conditions: Option<string> := None,
    interventions: Option<string> := None,
    primaryEndpoints: Option<string> := None,
    studyType: Option<string> := None,
    phase: Option<string> := None,
    status: Option<string> := None,
    specialty: string := "",
    subcategory: string := "",
    modeName: Option<string> := None,
    fingerprint: Option<string> := None,
    score: int := 0,
    scoreExplain: seq<string> := [],
    summaryText: Option<string> := None,
    citations: Option<int> := None,
    citationsSource: Option<string> := None,
    fullTextSource: Option<string> := None,
    fullTextText: Option<string> := None,
    supportSnippets: seq<string> := []
  )

  /** One entry of a query context's `concepts` list: a list of synonyms, or anything else (skipped). */
  datatype ConceptEntry = Group(terms: seq<string>) | NotAGroup

  /**
   * The search-query context attached to a pack's rules: the raw query (or its `query_text`
   * alias), the concept synonym groups and the keywords that query expansion produced.
   */
  datatype QueryContext = QueryContext(
    rawQuery: Option<string> := None,
    queryText: Option<string> := None,
    concepts: seq<ConceptEntry> := [],
    keywords: seq<string> := []
  )
}
