/**
 * The openFDA drug-approvals connector: the request with its status-date window, retried,
 * then the unfiltered fallback request when nothing came back; the record built from one
 * application; and the window, term and limit filter of `search`. The service's answers are
 * an input, by request and attempt; the date test against the window is an input too, as
 * it reads the clock and parses the date.
 */
module Fda {
  import opened Wrappers
  import opened Strings
  import opened Records
  import opened QueryTerms
  import opened Collect
  import opened Retry

  /** The most results one request asks for. */
  const MaxPageSize: nat := 100

  /** The parts of one product of an application the record is built from. */
  datatype Product = Product(brandName: Option<string>, drugName: Option<string>, activeNames: seq<Option<string>>)

  /** One submission of an application: its status and status date. */
  datatype Submission = Submission(status: Option<string>, statusDate: Option<string>)

  /** One entry of `results`. */
  datatype Application = Application(
    sponsorName: Option<string>,
    products: seq<Product>,
    submissions: seq<Submission>,
    applicationNumber: Option<string>
  )

  /**
   * A request: the `search` window (absent in the fallback request), the page size, and the
   * attempt number (from 1; the fallback is tried once).
   */
  datatype FdaRequest = FdaRequest(search: Option<string>, size: nat, attempt: nat)

  /**
   * The service's results for a request; `None` when it answers a retryable or error status
   * or raises.
   */
  type Api = FdaRequest -> Option<seq<Application>>

  /**
   * Whether the first eight characters of a status date, read as `%Y%m%d`, fall before the
   * window start; `None` when they do not parse.
   */
  type Stale = string -> Option<bool>

  /** The window: status dates from `startDate` (as `%Y%m%d`) on. */
  function Window(startDate: string): string {
    "submissions.submission_status_date:[" + startDate + "+TO+99991231]"
  }

  /** `min(limit, 100)` */
  function PageSize(limit: nat): nat {
    if limit < MaxPageSize then limit else MaxPageSize
  }

  /** The attempts of the windowed request. */
  function Attempts(api: Api, search: string, size: nat): nat -> Option<seq<Application>> {
    (attempt: nat) => api(FdaRequest(Some(search), size, attempt))
  }

  /** The results of the windowed request: those of its first answered attempt, or none. */
  function Primary(api: Api, startDate: string, limit: nat): seq<Application> {
    FirstAnswer(Attempts(api, Window(startDate), PageSize(limit)), 1).UnwrapOr([])
  }

  /** The applications `search` filters: those of the windowed request, or of the fallback when that gave none. */
  function Fetched(api: Api, startDate: string, limit: nat): seq<Application> {
    var data := Primary(api, startDate, limit);
    if data != [] then data
    else
      var fallback := api(FdaRequest(None, PageSize(limit), 1));
      if fallback.Some? then fallback.value else []
  }

  /** `primary_product["brand_name"] or primary_product["drug_name"] or "Unknown product"` */
  function Brand(a: Application): string {
    if a.products == [] then "Unknown product"
    else if Truthy(a.products[0].brandName) then a.products[0].brandName.value
    else if Truthy(a.products[0].drugName) then a.products[0].drugName.value
    else "Unknown product"
  }

  /** The named active ingredients of the first product, joined by ", ". */
  function Actives(a: Application): string {
    if a.products == [] then "" else Join(", ", Present(a.products[0].activeNames))
  }

  /** The latest submission's status, or "Status not stated". */
  function Status(a: Application): string {
    if a.submissions != [] && Truthy(a.submissions[0].status) then a.submissions[0].status.value else "Status not stated"
  }

  /** The latest submission's status date. */
  function StatusDate(a: Application): Option<string> {
    if a.submissions == [] then None else a.submissions[0].statusDate
  }

  /** The sponsor, or "FDA". */
  function Sponsor(a: Application): string {
    if Truthy(a.sponsorName) then a.sponsorName.value else "FDA"
  }

  /** The application is skipped for its date: it has one, it parses, and it falls before the window. */
  predicate OutOfWindow(a: Application, stale: Stale) {
    Truthy(StatusDate(a)) && stale(Take(StatusDate(a).value, 8)) == Some(true)
  }

  /** The text the terms are looked for in. */
  function FdaText(a: Application): string {
    Brand(a) + " " + Actives(a) + " " + Status(a) + " " + Sponsor(a)
  }

  /** The applications `search` keeps: in the window, and matching a term when there are terms. */
  function Kept(terms: seq<string>, stale: Stale): Application -> bool {
    a => !OutOfWindow(a, stale) && Matches(FdaText(a), terms)
  }

  /** The link to the application's overview page, or the FDA drugs page without an application number. */
  function FdaLink(appNum: Option<string>): string {
    if Truthy(appNum) then "https://www.accessdata.fda.gov/scripts/cder/daf/index.cfm?event=overview.process&ApplNo=" + appNum.value
    else "https://www.fda.gov/drugs"
  }

  /** The record `search` appends for an application. */
  function FdaItem(a: Application): Item {
    var actives := Actives(a);
    Item(source := "fda",
         title := "FDA update: " + Brand(a),
         url := Some(FdaLink(a.applicationNumber)),
         publishedAt := None,
         updatedAt := StatusDate(a),
         pmid := None, doi := None, nctId := None,
         venue := Some("FDA"), authors := None,
         abstractOrText := Some("Sponsor: " + Sponsor(a) + ". Status: " + Status(a) + ". Active ingredients: "
                                + (if actives != "" then actives else "Not stated") + "."))
  }

  /** `search(query, days_back, limit)`, the window start given as `startDate`. */
  function Search(query: string, startDate: string, limit: int, api: Api, stale: Stale): seq<Item> {
    if limit <= 0 then []
    else Selected(Fetched(api, startDate, limit), Kept(Terms(query), stale), FdaItem, limit)
  }

  /** `search` */
  method SearchApprovals(query: string, startDate: string, limit: int, api: Api, stale: Stale) returns (items: seq<Item>)
    ensures items == Search(query, startDate, limit, api, stale)
  {
    if limit <= 0 {
      return [];
    }
    var answer := Retried(Attempts(api, Window(startDate), PageSize(limit)));
    var data := answer.UnwrapOr([]);
    if data == [] {
      var fallback := api(FdaRequest(None, PageSize(limit), 1));
      if fallback.None? {
        return [];
      }
      data := fallback.value;
    }
    var terms := TermsFromQuery(query);
    items := CollectMatching(data, Kept(terms, stale), FdaItem, limit);
  }

  // ---------------------------------------------------------------- properties

  /**
   * The windowed request is tried at most `MaxRetries` times and the first answer is used,
   * even an empty one; when every attempt fails there are no results.
   */
  lemma PrimarySpec(api: Api, startDate: string, limit: nat)
    ensures var first := api(FdaRequest(Some(Window(startDate)), PageSize(limit), 1));
      first.Some? ==> Primary(api, startDate, limit) == first.value
    ensures var first := api(FdaRequest(Some(Window(startDate)), PageSize(limit), 1));
      var second := api(FdaRequest(Some(Window(startDate)), PageSize(limit), 2));
      && (first.None? && second.Some? ==> Primary(api, startDate, limit) == second.value)
      && (first.None? && second.None? ==> Primary(api, startDate, limit) == [])
  {
    FirstAnswerSpec(Attempts(api, Window(startDate), PageSize(limit)));
  }

  /**
   * `search` returns nothing for a non-positive limit; otherwise at most `limit` records: the
   * first of those built from the fetched applications that are in the window and match a
   * term, in the service's order.
   */
  lemma SearchSpec(query: string, startDate: string, limit: int, api: Api, stale: Stale)
    ensures limit <= 0 ==> Search(query, startDate, limit, api, stale) == []
    ensures limit > 0 ==>
      && |Search(query, startDate, limit, api, stale)| <= limit
      && Search(query, startDate, limit, api, stale) <= Built(Filter(Fetched(api, startDate, limit), Kept(Terms(query), stale)), FdaItem)
  {
    if limit > 0 {
      SelectedSpec(Fetched(api, startDate, limit), Kept(Terms(query), stale), FdaItem, limit);
    }
  }

  /**
   * An application whose status date parses and falls before the window is skipped; one
   * without a date, or whose date does not parse, is judged by the terms alone; with terms,
   * one is kept only when its brand, ingredients, status and sponsor text holds a term.
   */
  lemma KeptSpec(terms: seq<string>, stale: Stale, a: Application)
    ensures OutOfWindow(a, stale) ==> !Kept(terms, stale)(a)
    ensures !Truthy(StatusDate(a)) || stale(Take(StatusDate(a).value, 8)).None?
      ==> (Kept(terms, stale)(a) <==> Matches(FdaText(a), terms))
    ensures terms != [] && Kept(terms, stale)(a) ==> exists t | t in terms :: Contains(Lower(FdaText(a)), t)
  {
  }

  /**
   * Every record is an "fda" record titled "FDA update: " followed by the brand, the drug
   * name, or "Unknown product"; it links to the application's page exactly when it has an
   * application number.
   */
  lemma FdaItemSpec(a: Application)
    ensures FdaItem(a).source == "fda" && FdaItem(a).venue == Some("FDA")
    ensures FdaItem(a).title == "FDA update: " + Brand(a)
    ensures a.products == [] ==> Brand(a) == "Unknown product"
    ensures Brand(a) != ""
    ensures FdaItem(a).url == Some("https://www.fda.gov/drugs") <==> !Truthy(a.applicationNumber)
    ensures FdaItem(a).updatedAt == StatusDate(a)
  {
    if Truthy(a.applicationNumber) {
      assert |FdaLink(a.applicationNumber)| > |"https://www.fda.gov/drugs"|;
    }
  }

  /** The fallback is asked only when the windowed request gave nothing, and its failure gives nothing. */
  lemma FetchedSpec(api: Api, startDate: string, limit: nat)
    ensures Primary(api, startDate, limit) != [] ==> Fetched(api, startDate, limit) == Primary(api, startDate, limit)
    ensures Primary(api, startDate, limit) == [] && api(FdaRequest(None, PageSize(limit), 1)).None?
      ==> Fetched(api, startDate, limit) == []
    ensures Primary(api, startDate, limit) == [] && api(FdaRequest(None, PageSize(limit), 1)).Some?
      ==> Fetched(api, startDate, limit) == api(FdaRequest(None, PageSize(limit), 1)).value
  {
  }
}
