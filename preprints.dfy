/**
 * The bioRxiv and medRxiv connector: the cursor pagination of `_fetch_server` with its
 * retried page requests and its stopping rules, and the term filter and limit of `search`
 * over both servers' records. The servers' answers are an input, by page URL and attempt;
 * the date window is given as its two ends.
 */
module Preprints {
  import opened Wrappers
  import opened Strings
  import opened Records
  import opened QueryTerms
  import opened Collect
  import opened Retry

  /** The most records one page asks for. */
  const MaxPageSize: nat := 100

  /** `BIORXIV_BASE` and `MEDRXIV_BASE` */
  const BiorxivBase := "https://api.biorxiv.org"
  const MedrxivBase := "https://api.medrxiv.org"

  /** The fields of one entry of a page's `collection` that the record is built from. */
  datatype Raw = Raw(
    title: Option<string>,
    abstractText: Option<string>,
    doi: Option<string>,
    server: Option<string>,
    date: Option<string>,
    authors: Option<string>
  )

  /**
   * The collection a server answers a page URL with at an attempt (an empty one for an empty
   * payload); `None` when the attempt gets a retryable status or raises.
   */
  type Api = (string, nat) -> Option<seq<Raw>>

  /** `min(limit, 100)` */
  function PageSize(limit: nat): nat {
    if limit < MaxPageSize then limit else MaxPageSize
  }

  /** `f"{base}/details/{server}/{start_date}/{end_date}/{cursor}"` */
  function PageUrl(server: string, startDate: string, endDate: string, cursor: nat): string {
    (if server == "biorxiv" then BiorxivBase else MedrxivBase)
      + "/details/" + server + "/" + startDate + "/" + endDate + "/" + NatToString(cursor)
  }

  /** The attempts at one page. */
  function Attempts(api: Api, url: string): nat -> Option<seq<Raw>> {
    (attempt: nat) => api(url, attempt)
  }

  /** The collection of one page after the retries; `None` when no attempt was answered. */
  function Page(api: Api, url: string): Option<seq<Raw>> {
    FirstAnswer(Attempts(api, url), 1)
  }

  /**
   * The pages of `_fetch_server` from `cursor` on with `out` gathered: stop at `limit`
   * records, at a page nobody answered, at an empty page, and after a short page; otherwise
   * move the cursor on by the page size.
   */
  function Pages(api: Api, server: string, startDate: string, endDate: string, limit: nat, cursor: nat, out: seq<Raw>): seq<Raw>
    decreases limit - |out|
  {
    if |out| >= limit then out
    else
      var page := Page(api, PageUrl(server, startDate, endDate, cursor));
      if page.None? || page.value == [] then out
      else if |page.value| < PageSize(limit) then out + page.value
      else Pages(api, server, startDate, endDate, limit, cursor + PageSize(limit), out + page.value)
  }

  /** `_fetch_server(server, start_date, end_date, limit)` */
  function FetchServer(api: Api, server: string, startDate: string, endDate: string, limit: nat): seq<Raw> {
    Take(Pages(api, server, startDate, endDate, limit, 0, []), limit)
  }

  /** `_fetch_server` */
  method FetchServerRecords(api: Api, server: string, startDate: string, endDate: string, limit: nat) returns (records: seq<Raw>)
    ensures records == FetchServer(api, server, startDate, endDate, limit)
  {
    var cursor: nat := 0;
    var size := PageSize(limit);
    var out: seq<Raw> := [];
    while |out| < limit
      invariant Pages(api, server, startDate, endDate, limit, cursor, out) == Pages(api, server, startDate, endDate, limit, 0, [])
      decreases limit - |out|
    {
      var url := PageUrl(server, startDate, endDate, cursor);
      var payload := Retried(Attempts(api, url));
      if payload.None? {
        break;
      }
      var collection := payload.value;
      if collection == [] {
        break;
      }
      out := out + collection;
      if |collection| < size {
        break;
      }
      cursor := cursor + size;
    }
    records := Take(out, limit);
  }

  /** The stripped title and abstract. */
  function TitleOf(r: Raw): string { Strip(OrEmpty(r.title)) }
  function AbstractOf(r: Raw): string { Strip(OrEmpty(r.abstractText)) }

  /** The match test of `search`: title and abstract, joined by a space, against the terms. */
  function Relevant(terms: seq<string>): Raw -> bool {
    r => Matches(TitleOf(r) + " " + AbstractOf(r), terms)
  }

  /** The record `search` appends for a preprint. */
  function PreprintItem(r: Raw): Item {
    var doi := Cleaned(r.doi);
    Item(source := "preprint",
         title := if TitleOf(r) != "" then TitleOf(r) else "Untitled preprint",
         url := Some(if doi.Some? then "https://doi.org/" + doi.value else "https://www.medrxiv.org"),
         publishedAt := r.date,
         updatedAt := None,
         pmid := None, doi := doi, nctId := None,
         venue := Some(Lower(if Truthy(r.server) then r.server.value else "preprint")),
         authors := r.authors,
         abstractOrText := Some(AbstractOf(r)))
  }

  /** `search(query, days_back, limit)`, the window given as its two ends. */
  function Search(query: string, startDate: string, endDate: string, limit: int, api: Api): seq<Item> {
    if limit <= 0 then []
    else
      var raw := FetchServer(api, "biorxiv", startDate, endDate, limit) + FetchServer(api, "medrxiv", startDate, endDate, limit);
      Selected(raw, Relevant(Terms(query)), PreprintItem, limit)
  }

  /** `search` */
  method SearchPreprints(query: string, startDate: string, endDate: string, limit: int, api: Api) returns (items: seq<Item>)
    ensures items == Search(query, startDate, endDate, limit, api)
  {
    if limit <= 0 {
      return [];
    }
    var terms := TermsFromQuery(query);
    var biorxiv := FetchServerRecords(api, "biorxiv", startDate, endDate, limit);
    var medrxiv := FetchServerRecords(api, "medrxiv", startDate, endDate, limit);
    items := CollectMatching(biorxiv + medrxiv, Relevant(terms), PreprintItem, limit);
  }

  // ---------------------------------------------------------------- properties

  /** The pages requested from `cursor` on: cursor `cursor`, then one page size further each time. */
  function Cursors(api: Api, server: string, startDate: string, endDate: string, limit: nat, cursor: nat, out: seq<Raw>): seq<nat>
    decreases limit - |out|
  {
    if |out| >= limit then []
    else
      if Stops(api, server, startDate, endDate, limit, cursor) then [cursor]
      else
        var page := Page(api, PageUrl(server, startDate, endDate, cursor));
        [cursor] + Cursors(api, server, startDate, endDate, limit, cursor + PageSize(limit), out + page.value)
  }

  /** The gathering stops at the page at `cursor`: nobody answered it, it was empty, or it was short. */
  predicate Stops(api: Api, server: string, startDate: string, endDate: string, limit: nat, cursor: nat) {
    var page := Page(api, PageUrl(server, startDate, endDate, cursor));
    page.None? || page.value == [] || |page.value| < PageSize(limit)
  }

  /** The `i`-th page asked for came back full, and the next one was asked one page size further on. */
  predicate Advances(api: Api, server: string, startDate: string, endDate: string, limit: nat, cs: seq<nat>, i: nat)
    requires i + 1 < |cs|
  {
    !Stops(api, server, startDate, endDate, limit, cs[i]) && cs[i + 1] == cs[i] + PageSize(limit)
  }

  /** The records gathered only grow: those gathered before are the first ones of the result. */
  lemma {:induction false} PagesGrow(api: Api, server: string, startDate: string, endDate: string, limit: nat, cursor: nat, out: seq<Raw>)
    ensures out <= Pages(api, server, startDate, endDate, limit, cursor, out)
    decreases limit - |out|
  {
    if |out| < limit && !Stops(api, server, startDate, endDate, limit, cursor) {
      var page := Page(api, PageUrl(server, startDate, endDate, cursor));
      PagesGrow(api, server, startDate, endDate, limit, cursor + PageSize(limit), out + page.value);
    }
  }

  /**
   * The pages asked for start at `cursor` and are one page size apart, and every page but the
   * last came back full.
   */
  lemma {:induction false} CursorsSpec(api: Api, server: string, startDate: string, endDate: string, limit: nat, cursor: nat, out: seq<Raw>)
    ensures var cs := Cursors(api, server, startDate, endDate, limit, cursor, out);
      && (|out| < limit ==> |cs| >= 1 && cs[0] == cursor)
      && (forall i: nat | i + 1 < |cs| :: Advances(api, server, startDate, endDate, limit, cs, i))
    decreases limit - |out|
  {
    if |out| < limit && !Stops(api, server, startDate, endDate, limit, cursor) {
      var page := Page(api, PageUrl(server, startDate, endDate, cursor));
      var next := cursor + PageSize(limit);
      CursorsSpec(api, server, startDate, endDate, limit, next, out + page.value);
      var rest := Cursors(api, server, startDate, endDate, limit, next, out + page.value);
      var cs := Cursors(api, server, startDate, endDate, limit, cursor, out);
      assert cs == [cursor] + rest;
      forall i: nat | i + 1 < |cs|
        ensures Advances(api, server, startDate, endDate, limit, cs, i)
      {
        if i > 0 {
          assert Advances(api, server, startDate, endDate, limit, rest, i - 1);
        }
      }
    }
  }

  /**
   * When fewer than `limit` records were gathered, the gathering stopped at the last page
   * asked for: nobody answered it, it was empty, or it was short.
   */
  lemma {:induction false} LastPageStops(api: Api, server: string, startDate: string, endDate: string, limit: nat, cursor: nat, out: seq<Raw>)
    requires |out| < limit
    ensures var cs := Cursors(api, server, startDate, endDate, limit, cursor, out);
      |Pages(api, server, startDate, endDate, limit, cursor, out)| < limit ==>
        |cs| >= 1 && Stops(api, server, startDate, endDate, limit, cs[|cs| - 1])
    decreases limit - |out|
  {
    if !Stops(api, server, startDate, endDate, limit, cursor) {
      var page := Page(api, PageUrl(server, startDate, endDate, cursor));
      var next := cursor + PageSize(limit);
      var out' := out + page.value;
      if |out'| < limit {
        LastPageStops(api, server, startDate, endDate, limit, next, out');
        var rest := Cursors(api, server, startDate, endDate, limit, next, out');
        var cs := Cursors(api, server, startDate, endDate, limit, cursor, out);
        assert cs == [cursor] + rest;
        if |Pages(api, server, startDate, endDate, limit, cursor, out)| < limit {
          assert cs[|cs| - 1] == rest[|rest| - 1];
        }
      } else {
        PagesGrow(api, server, startDate, endDate, limit, next, out');
      }
    }
  }

  /** The records of the pages at the cursors `cs`, in order; a page nobody answered adds none. */
  function PageRecords(api: Api, server: string, startDate: string, endDate: string, cs: seq<nat>): seq<Raw>
    decreases |cs|
  {
    if cs == [] then []
    else
      var page := Page(api, PageUrl(server, startDate, endDate, cs[0]));
      (if page.None? then [] else page.value) + PageRecords(api, server, startDate, endDate, cs[1..])
  }

  /** The records gathered are those already held followed by the records of every page asked for. */
  lemma {:induction false} PagesAreCursorPages(api: Api, server: string, startDate: string, endDate: string, limit: nat, cursor: nat, out: seq<Raw>)
    ensures Pages(api, server, startDate, endDate, limit, cursor, out)
      == out + PageRecords(api, server, startDate, endDate, Cursors(api, server, startDate, endDate, limit, cursor, out))
    decreases limit - |out|
  {
    var cs := Cursors(api, server, startDate, endDate, limit, cursor, out);
    if |out| >= limit {
      assert cs == [];
      assert out + [] == out;
    } else {
      var page := Page(api, PageUrl(server, startDate, endDate, cursor));
      var got := if page.None? then [] else page.value;
      if Stops(api, server, startDate, endDate, limit, cursor) {
        assert cs == [cursor];
        assert PageRecords(api, server, startDate, endDate, cs) == got + PageRecords(api, server, startDate, endDate, []);
        assert got == [] ==> out + got == out;
      } else {
        var next := cursor + PageSize(limit);
        var rest := Cursors(api, server, startDate, endDate, limit, next, out + page.value);
        PagesAreCursorPages(api, server, startDate, endDate, limit, next, out + page.value);
        assert cs == [cursor] + rest;
        assert cs[1..] == rest;
        assert PageRecords(api, server, startDate, endDate, cs) == page.value + PageRecords(api, server, startDate, endDate, rest);
        assert (out + page.value) + PageRecords(api, server, startDate, endDate, rest)
            == out + (page.value + PageRecords(api, server, startDate, endDate, rest));
      }
    }
  }

  /**
   * `_fetch_server` returns at most `limit` records, the first ones its pages returned, in
   * order: the first `limit` records of the pages at the cursors it asked for, all of them
   * when there are fewer.
   */
  lemma FetchServerSpec(api: Api, server: string, startDate: string, endDate: string, limit: nat)
    ensures |FetchServer(api, server, startDate, endDate, limit)| <= limit
    ensures FetchServer(api, server, startDate, endDate, limit) <= Pages(api, server, startDate, endDate, limit, 0, [])
    ensures FetchServer(api, server, startDate, endDate, limit)
      == Take(PageRecords(api, server, startDate, endDate, Cursors(api, server, startDate, endDate, limit, 0, [])), limit)
  {
    PagesAreCursorPages(api, server, startDate, endDate, limit, 0, []);
    var recs := PageRecords(api, server, startDate, endDate, Cursors(api, server, startDate, endDate, limit, 0, []));
    assert [] + recs == recs;
  }

  /**
   * `search` returns nothing for a non-positive limit; otherwise at most `limit` records: the
   * first of those built from the bioRxiv then the medRxiv records that match a term, in order.
   */
  lemma SearchSpec(query: string, startDate: string, endDate: string, limit: int, api: Api)
    ensures limit <= 0 ==> Search(query, startDate, endDate, limit, api) == []
    ensures limit > 0 ==>
      var raw := FetchServer(api, "biorxiv", startDate, endDate, limit) + FetchServer(api, "medrxiv", startDate, endDate, limit);
      && |Search(query, startDate, endDate, limit, api)| <= limit
      && Search(query, startDate, endDate, limit, api) <= Built(Filter(raw, Relevant(Terms(query))), PreprintItem)
  {
    if limit > 0 {
      var raw := FetchServer(api, "biorxiv", startDate, endDate, limit) + FetchServer(api, "medrxiv", startDate, endDate, limit);
      SelectedSpec(raw, Relevant(Terms(query)), PreprintItem, limit);
    }
  }

  /**
   * A record links to its DOI when it has a non-blank one and to medRxiv otherwise; a blank
   * DOI is dropped; the venue is the lower-cased server, or "preprint".
   */
  lemma PreprintItemSpec(r: Raw)
    ensures PreprintItem(r).source == "preprint"
    ensures PreprintItem(r).doi.Some? <==> Strip(OrEmpty(r.doi)) != ""
    ensures PreprintItem(r).doi.Some? ==> PreprintItem(r).url == Some("https://doi.org/" + Strip(OrEmpty(r.doi)))
    ensures PreprintItem(r).url == Some("https://www.medrxiv.org") <==> PreprintItem(r).doi.None?
    ensures PreprintItem(r).title != ""
  {
    var doi := Cleaned(r.doi);
    if doi.Some? {
      var u := "https://doi.org/" + doi.value;
      assert u[8] == 'd' && "https://www.medrxiv.org"[8] == 'w';
    }
  }
}
