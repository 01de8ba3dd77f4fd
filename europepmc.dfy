/**
 * The Europe PMC connector: the query sent with its date window and source clause, the
 * record built from one search result, the term filter and limit of `search`, and the
 * abstract look-up by PMID or DOI. The service's answer to a request is an input; a missing
 * answer stands for the exception the request raises.
 */
module EuropePmc {
  import opened Wrappers
  import opened Strings
  import opened Records
  import opened QueryTerms
  import opened Collect

  /** The most results one request asks for. */
  const MaxPageSize: nat := 1000

  /** The fields of one entry of `resultList.result` that the record is built from. */
  datatype EpmcResult = EpmcResult(
    title: Option<string>,
    abstractText: Option<string>,
    source: Option<string>,
    doi: Option<string>,
    pmid: Option<string>,
    pmcid: Option<string>,
    firstPublicationDate: Option<string>,
    pubYear: Option<string>,
    dateOfRevision: Option<string>,
    journalTitle: Option<string>,
    authorString: Option<string>
  )

  /** The results the service answers a query with, given the query text and the page size; `None` when the request raises. */
  type Api = (string, nat) -> Option<seq<EpmcResult>>

  /**
   * The query sent: the user's query in parentheses, the publication-date window from
   * `startDate` (today less `days_back`, as `%Y-%m-%d`), and the preprint-only or
   * MEDLINE-or-preprint source clause.
   */
  function EpmcQuery(query: string, startDate: string, preprintOnly: bool): string {
    "(" + query + ") AND FIRST_PDATE:[" + startDate + " TO *]"
      + (if preprintOnly then " AND SRC:PPR" else " AND (SRC:MED OR SRC:PPR)")
  }

  /** `min(limit, 1000)` */
  function PageSize(limit: nat): nat {
    if limit < MaxPageSize then limit else MaxPageSize
  }

  /** The stripped title and abstract, as the match test and the record use them. */
  function TitleOf(r: EpmcResult): string { Strip(OrEmpty(r.title)) }
  function AbstractOf(r: EpmcResult): string { Strip(OrEmpty(r.abstractText)) }

  /** The link: the DOI, else PubMed by PMID, else Europe PMC by PMCID, else Europe PMC itself. */
  function Link(doi: Option<string>, pmid: Option<string>, pmcid: Option<string>): string {
    if doi.Some? then "https://doi.org/" + doi.value
    else if pmid.Some? then "https://pubmed.ncbi.nlm.nih.gov/" + pmid.value + "/"
    else if pmcid.Some? then "https://europepmc.org/article/PMC/" + pmcid.value
    else "https://europepmc.org"
  }

  /** The record `search` appends for a result. */
  function ResultRecord(r: EpmcResult): Item {
    var doi := Cleaned(r.doi);
    var pmid := Cleaned(r.pmid);
    var pmcid := Cleaned(r.pmcid);
    Item(source := if r.source == Some("PPR") then "preprint" else "europepmc",
         title := if TitleOf(r) != "" then TitleOf(r) else "Untitled article",
         url := Some(Link(doi, pmid, pmcid)),
         publishedAt := if Truthy(r.firstPublicationDate) then r.firstPublicationDate else r.pubYear,
         updatedAt := r.dateOfRevision,
         pmid := pmid, doi := doi, nctId := None,
         venue := Some(if Truthy(r.journalTitle) then r.journalTitle.value else "Europe PMC"),
         authors := r.authorString,
         abstractOrText := Some(AbstractOf(r)))
  }

  /** The match test of `search`: title and abstract, joined by a space, against the terms. */
  function Relevant(terms: seq<string>): EpmcResult -> bool {
    r => Matches(TitleOf(r) + " " + AbstractOf(r), terms)
  }

  /** `search(query, days_back, limit, preprint_only)`, the date window given as `startDate`. */
  function Search(query: string, startDate: string, limit: int, preprintOnly: bool, api: Api): Option<seq<Item>> {
    if Strip(query) == "" || limit <= 0 then Some([])
    else
      var results := api(EpmcQuery(query, startDate, preprintOnly), PageSize(limit));
      if results.None? then None
      else Some(Selected(results.value, Relevant(Terms(query)), ResultRecord, limit))
  }


  /** `search` */
  method SearchResults(query: string, startDate: string, limit: int, preprintOnly: bool, api: Api) returns (r: Option<seq<Item>>)
    ensures r == Search(query, startDate, limit, preprintOnly, api)
  {
    if Strip(query) == "" || limit <= 0 {
      return Some([]);
    }
    var results := api(EpmcQuery(query, startDate, preprintOnly), PageSize(limit));
    if results.None? {
      return None;
    }
    var terms := TermsFromQuery(query);
    var items := CollectMatching(results.value, Relevant(terms), ResultRecord, limit);
    r := Some(items);
  }

  /** The query for `fetch_abstract_by_ids`: `EXT_ID:<pmid>` and `DOI:"<doi>"` for those given, joined by " OR ". */
  function AbstractQuery(pmid: Option<string>, doi: Option<string>): string {
    Join(" OR ", (if Truthy(pmid) then ["EXT_ID:" + pmid.value] else []) + (if Truthy(doi) then ["DOI:\"" + doi.value + "\""] else []))
  }

  /** `fetch_abstract_by_ids`: the first result's stripped abstract, or `None`. */
  function FetchAbstract(pmid: Option<string>, doi: Option<string>, api: Api): Option<string> {
    if !Truthy(pmid) && !Truthy(doi) then None
    else
      var results := api(AbstractQuery(pmid, doi), 1);
      if results.None? || results.value == [] then None
      else Cleaned(results.value[0].abstractText)
  }

  // ---------------------------------------------------------------- properties

  /**
   * A record is a preprint exactly when its result came from the `PPR` source; its identifiers
   * are the stripped ones, blanks dropped; its link follows the DOI, then the PMID, then the
   * PMCID, and is the Europe PMC home page only when all three are blank.
   */
  lemma ResultRecordSpec(r: EpmcResult)
    ensures ResultRecord(r).source == "preprint" <==> r.source == Some("PPR")
    ensures ResultRecord(r).doi.Some? <==> Strip(OrEmpty(r.doi)) != ""
    ensures ResultRecord(r).pmid.Some? <==> Strip(OrEmpty(r.pmid)) != ""
    ensures ResultRecord(r).doi.Some? ==> ResultRecord(r).url == Some("https://doi.org/" + Strip(OrEmpty(r.doi)))
    ensures ResultRecord(r).doi.None? && ResultRecord(r).pmid.Some?
      ==> ResultRecord(r).url == Some("https://pubmed.ncbi.nlm.nih.gov/" + Strip(OrEmpty(r.pmid)) + "/")
    ensures ResultRecord(r).doi.None? && ResultRecord(r).pmid.None? && Cleaned(r.pmcid).Some?
      ==> ResultRecord(r).url == Some("https://europepmc.org/article/PMC/" + Strip(OrEmpty(r.pmcid)))
    ensures ResultRecord(r).url == Some("https://europepmc.org")
      <==> Cleaned(r.doi).None? && Cleaned(r.pmid).None? && Cleaned(r.pmcid).None?
    ensures ResultRecord(r).title != ""
  {
    LinkSpec(Cleaned(r.doi), Cleaned(r.pmid), Cleaned(r.pmcid));
  }

  /** Only three blank identifiers lead to the Europe PMC home page. */
  lemma LinkSpec(doi: Option<string>, pmid: Option<string>, pmcid: Option<string>)
    ensures Link(doi, pmid, pmcid) == "https://europepmc.org" <==> doi.None? && pmid.None? && pmcid.None?
  {
    var home := "https://europepmc.org";
    var u := Link(doi, pmid, pmcid);
    if doi.Some? {
      assert u[8] == 'd' && home[8] == 'e';
    } else if pmid.Some? {
      assert |u| > |home|;
    } else if pmcid.Some? {
      assert |u| > |home|;
    }
  }

  /** The answer of `search` to the results of its request. */
  function Answer(results: Option<seq<EpmcResult>>, terms: seq<string>, limit: int): Option<seq<Item>> {
    if results.None? then None else Some(Selected(results.value, Relevant(terms), ResultRecord, limit))
  }

  /**
   * `search` returns nothing for a blank query or a non-positive limit, and otherwise answers
   * the results of one request for the query with its window and source clause.
   */
  lemma SearchSpec(query: string, startDate: string, limit: int, preprintOnly: bool, api: Api)
    ensures Strip(query) == "" || limit <= 0 ==> Search(query, startDate, limit, preprintOnly, api) == Some([])
    ensures Strip(query) != "" && limit > 0 ==>
      Search(query, startDate, limit, preprintOnly, api) == Answer(api(EpmcQuery(query, startDate, preprintOnly), PageSize(limit)), Terms(query), limit)
  {
  }

  /**
   * The answer holds at most `limit` records (one when `limit` is not positive): the first
   * records of the results whose title and abstract matched a term (of all results when
   * there are no terms), in the service's order.
   */
  lemma AnswerSpec(results: Option<seq<EpmcResult>>, terms: seq<string>, limit: int)
    ensures results.None? <==> Answer(results, terms, limit).None?
    ensures var r := Answer(results, terms, limit);
      r.Some? ==>
        && |r.value| <= Cap(limit)
        && r.value <= Built(Filter(results.value, Relevant(terms)), ResultRecord)
  {
    if results.Some? {
      SelectedSpec(results.value, Relevant(terms), ResultRecord, limit);
    }
  }

  /** A relevant result matches when the query has no terms, and otherwise when its text holds a term. */
  lemma RelevantSpec(terms: seq<string>, r: EpmcResult)
    ensures terms == [] ==> Relevant(terms)(r)
    ensures Relevant(terms)(r) <==> terms == [] || exists t | t in terms :: Contains(Lower(TitleOf(r) + " " + AbstractOf(r)), t)
  {
  }

  /**
   * The query window and source clause: the user's query is kept whole inside parentheses,
   * and the preprint-only flag narrows the sources to `PPR`.
   */
  lemma EpmcQuerySpec(query: string, startDate: string, preprintOnly: bool)
    ensures EpmcQuery(query, startDate, preprintOnly)[..|query| + 2] == "(" + query + ")"
    ensures var q := EpmcQuery(query, startDate, true); q[|q| - 12..] == " AND SRC:PPR"
  {
    var p := "(" + query + ") AND FIRST_PDATE:[" + startDate + " TO *]";
    assert EpmcQuery(query, startDate, true) == p + " AND SRC:PPR";
    var head := "(" + query + ")";
    var q := EpmcQuery(query, startDate, preprintOnly);
    assert q == head + (" AND FIRST_PDATE:[" + startDate + " TO *]" + (if preprintOnly then " AND SRC:PPR" else " AND (SRC:MED OR SRC:PPR)"));
  }

  /**
   * `fetch_abstract_by_ids` gives `None` without asking anything when neither a PMID nor a DOI
   * is given; otherwise its answer is a non-empty stripped abstract of the first result, or
   * `None`.
   */
  lemma FetchAbstractSpec(pmid: Option<string>, doi: Option<string>, api: Api)
    ensures !Truthy(pmid) && !Truthy(doi) ==> FetchAbstract(pmid, doi, api) == None
    ensures FetchAbstract(pmid, doi, api).Some? ==>
      var results := api(AbstractQuery(pmid, doi), 1);
      && results.Some? && results.value != []
      && FetchAbstract(pmid, doi, api).value == Strip(OrEmpty(results.value[0].abstractText))
      && FetchAbstract(pmid, doi, api).value != ""
    ensures Truthy(pmid) && !Truthy(doi) ==> AbstractQuery(pmid, doi) == "EXT_ID:" + pmid.value
    ensures Truthy(pmid) && Truthy(doi) ==> AbstractQuery(pmid, doi) == "EXT_ID:" + pmid.value + " OR " + "DOI:\"" + doi.value + "\""
  {
    if Truthy(pmid) && Truthy(doi) {
      var a := "EXT_ID:" + pmid.value;
      var b := "DOI:\"" + doi.value + "\"";
      assert [a] + [b] == [a, b];
      assert [a, b][1..] == [b];
      assert Join(" OR ", [b]) == b;
    } else if Truthy(pmid) {
      assert ["EXT_ID:" + pmid.value] + [] == ["EXT_ID:" + pmid.value];
    }
  }
}
