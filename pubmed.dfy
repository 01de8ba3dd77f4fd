/**
 * The PubMed connector's own logic: month and publication-date normalisation, the NCT
 * number found in an abstract, the record built from an article's extracted fields, the
 * esearch pagination with its ordered de-duplication, and the efetch batching. The HTTP
 * answers (after the retries of `_request_with_retry`) are inputs; an answer that is
 * missing stands for the `RuntimeError` the retries end in.
 */
module PubMed {
  import opened Wrappers
  import opened Strings
  import opened Records

  /** `PUBMED_EFETCH_BATCH_SIZE` */
  const EfetchBatchSize: nat := 200

  /** The most ids one esearch request asks for. */
  const EsearchStep: nat := 200

  // ---------------------------------------------------------------- dates

  /** `MONTH_MAP.get(key)` */
  function MonthByName(key: string): Option<string> {
    if key == "jan" then Some("01")
    else if key == "feb" then Some("02")
    else if key == "mar" then Some("03")
    else if key == "apr" then Some("04")
    else if key == "may" then Some("05")
    else if key == "jun" then Some("06")
    else if key == "jul" then Some("07")
    else if key == "aug" then Some("08")
    else if key == "sep" then Some("09")
    else if key == "oct" then Some("10")
    else if key == "nov" then Some("11")
    else if key == "dec" then Some("12")
    else None
  }

  /** `s.zfill(2)` for a string of digits. */
  function ZFill2(s: string): string {
    if |s| >= 2 then s else seq(2 - |s|, i => '0') + s
  }

  /** `str.isdigit()`: non-empty and all decimal digits. */
  predicate IsDigits(s: string) {
    s != [] && AllDigits(s)
  }

  /** `_normalize_month` */
  function NormalizeMonth(month: Option<string>): Option<string> {
    if month.None? || month.value == "" then None
    else
      var m := Strip(month.value);
      if m == "" then None
      else if IsDigits(m) then
        (if 1 <= ParseNat(m) <= 12 then Some(ZFill2(NatToString(ParseNat(m)))) else None)
      else MonthByName(Lower(Take(m, 3)))
  }

  /** The twelve two-digit month numbers. */
  predicate IsMonthCode(s: string) {
    |s| == 2 && ((s[0] == '0' && '1' <= s[1] <= '9') || (s[0] == '1' && '0' <= s[1] <= '2'))
  }

  /** The two-digit form of a month number names that month. */
  lemma MonthCodeOf(n: nat)
    requires 1 <= n <= 12
    ensures IsMonthCode(ZFill2(NatToString(n))) && ParseNat(ZFill2(NatToString(n))) == n
  {
    var d := DigitChar(n % 10);
    ParseNatToString(n);
    if n >= 10 {
      assert n / 10 == 1;
      assert NatToString(n) == NatToString(1) + [d] == ['1', d];
    } else {
      assert NatToString(n) == [d];
      assert ZFill2([d]) == ['0', d];
      assert ['0', d][..1] == ['0'];
      assert ['0'][..0] == [];
      assert ParseNat(['0']) == 0;
    }
  }

  /**
   * A month in digits from 1 to 12 becomes its two-digit form and any other number is
   * dropped; a name is looked up by its first three letters, lower-cased; whatever
   * comes out is one of the twelve month codes.
   */
  lemma NormalizeMonthSpec(month: string)
    ensures var m := Strip(month);
      && (IsDigits(m) ==> NormalizeMonth(Some(month)) == if 1 <= ParseNat(m) <= 12 then Some(ZFill2(NatToString(ParseNat(m)))) else None)
      && (m != "" && !IsDigits(m) ==> NormalizeMonth(Some(month)) == MonthByName(Lower(Take(m, 3))))
      && (m == "" ==> NormalizeMonth(Some(month)) == None)
    ensures NormalizeMonth(Some(month)).Some? ==> IsMonthCode(NormalizeMonth(Some(month)).value)
  {
    var m := Strip(month);
    if month == "" {
      assert m == "";
    } else if m != "" && IsDigits(m) && 1 <= ParseNat(m) <= 12 {
      MonthCodeOf(ParseNat(m));
    }
  }

  /** `day_raw.zfill(2) if day_raw and day_raw.isdigit() else None` */
  function Day(dayRaw: Option<string>): Option<string> {
    if dayRaw.Some? && IsDigits(dayRaw.value) then Some(ZFill2(dayRaw.value)) else None
  }

  /**
   * `_extract_pub_date` on the already extracted `Year`, `Month`, `Day` and `MedlineDate`
   * texts: the present parts joined by "-", or the MedlineDate without a year.
   */
  function ExtractPubDate(year: Option<string>, month: Option<string>, dayRaw: Option<string>, medline: Option<string>)
    : Option<string>
  {
    if year.Some? && year.value != "" then Some(DateParts(Strip(year.value), NormalizeMonth(month), Day(dayRaw)))
    else if medline.Some? && medline.value != "" then Some(Strip(medline.value))
    else None
  }

  /** `"-".join(parts)` over the year and whichever of month and day are present. */
  function DateParts(y: string, m: Option<string>, d: Option<string>): string {
    Join("-", [y] + (if m.Some? then [m.value] else []) + (if d.Some? then [d.value] else []))
  }

  /** The joined date is the year followed by "-month" and "-day" for each part present. */
  lemma DatePartsSpec(y: string, m: Option<string>, d: Option<string>)
    ensures DateParts(y, m, d) == y + (if m.Some? then "-" + m.value else "") + (if d.Some? then "-" + d.value else "")
  {
    var mv := if m.Some? then m.value else "";
    var dv := if d.Some? then d.value else "";
    JoinSmall("-", y, mv, dv);
    JoinSmall("-", y, dv, "");
    if m.Some? && d.Some? {
      assert [y] + [mv] + [dv] == [y, mv, dv];
    } else if m.Some? {
      assert [y] + [mv] + [] == [y, mv];
    } else if d.Some? {
      assert [y] + [] + [dv] == [y, dv];
    } else {
      assert [y] + [] + [] == [y];
    }
  }

  /** `sep.join([a, b])` and `sep.join([a, b, c])` spelled out. */
  lemma JoinSmall(sep: string, a: string, b: string, c: string)
    ensures Join(sep, [a]) == a
    ensures Join(sep, [a, b]) == a + sep + b
    ensures Join(sep, [a, b, c]) == a + sep + b + sep + c
  {
    assert [a, b][1..] == [b];
    assert [a, b, c][1..] == [b, c];
    assert [b, c][1..] == [c];
    assert Join(sep, [c]) == c;
    assert Join(sep, [b, c]) == b + sep + c;
    assert a + sep + (b + sep + c) == a + sep + b + sep + c;
  }

  /**
   * With a year the date is the stripped year followed by "-month" and "-day" for each part
   * present, so the year always comes first; without one it is the stripped MedlineDate, or
   * nothing.
   */
  lemma PubDateSpec(year: Option<string>, month: Option<string>, dayRaw: Option<string>, medline: Option<string>)
    ensures var m := NormalizeMonth(month);
      var d := Day(dayRaw);
      var r := ExtractPubDate(year, month, dayRaw, medline);
      && (year.Some? && year.value != "" ==>
            r == Some(Strip(year.value) + (if m.Some? then "-" + m.value else "") + (if d.Some? then "-" + d.value else "")))
      && (year.None? || year.value == "" ==>
            r == if medline.Some? && medline.value != "" then Some(Strip(medline.value)) else None)
  {
    if year.Some? && year.value != "" {
      DatePartsSpec(Strip(year.value), NormalizeMonth(month), Day(dayRaw));
    }
  }

  // ---------------------------------------------------------------- NCT numbers

  /** `\bNCT\d{8}\b` matches at `i`. */
  predicate NctAt(s: string, i: nat) {
    && i + 11 <= |s|
    && s[i..i + 3] == "NCT"
    && AllDigits(s[i + 3..i + 11])
    && (i == 0 || !IsWordChar(s[i - 1]))
    && (i + 11 == |s| || !IsWordChar(s[i + 11]))
  }

  /** The first match at or after `from`. */
  function FindNct(s: string, from: nat): (r: Option<nat>)
    requires from <= |s|
    ensures r.Some? ==> from <= r.value && NctAt(s, r.value)
    decreases |s| - from
  {
    if NctAt(s, from) then Some(from) else if from == |s| then None else FindNct(s, from + 1)
  }

  /** `_extract_nct_id` */
  function ExtractNctId(text: Option<string>): (r: Option<string>) {
    if text.None? || text.value == "" then None
    else
      match FindNct(text.value, 0)
      case Some(i) => Some(text.value[i..i + 11])
      case None => None
  }

  lemma {:induction false} FindNctFirst(s: string, from: nat)
    requires from <= |s|
    ensures FindNct(s, from).Some? ==> forall j | from <= j < FindNct(s, from).value :: !NctAt(s, j)
    ensures FindNct(s, from).None? ==> forall j | from <= j <= |s| :: !NctAt(s, j)
    decreases |s| - from
  {
    if !NctAt(s, from) && from < |s| {
      FindNctFirst(s, from + 1);
    }
  }

  /**
   * The NCT number is the leftmost word-bounded "NCT" and eight digits, and there is none
   * exactly when no position holds one.
   */
  lemma NctSpec(text: string)
    requires text != ""
    ensures ExtractNctId(Some(text)).None? <==> forall i | 0 <= i <= |text| :: !NctAt(text, i)
    ensures ExtractNctId(Some(text)).Some? ==>
      exists i | 0 <= i <= |text| :: NctAt(text, i) && ExtractNctId(Some(text)).value == text[i..i + 11]
        && forall j | 0 <= j < i :: !NctAt(text, j)
    ensures ExtractNctId(Some(text)).Some? ==> |ExtractNctId(Some(text)).value| == 11
  {
    FindNctFirst(text, 0);
  }

  // ---------------------------------------------------------------- records

  /** The fields `parse_pubmed_xml` reads from one `PubmedArticle`, already extracted from the XML. */
  datatype Article = Article(
    pmid: string, title: string, abstractText: string, journal: string, doi: Option<string>,
    year: Option<string>, month: Option<string>, day: Option<string>, medline: Option<string>, authors: string)

  /** The record `parse_pubmed_xml` builds for an article. */
  function RecordOf(a: Article): Item {
    Item(source := "pubmed", title := a.title,
         url := if a.pmid != "" then Some("https://pubmed.ncbi.nlm.nih.gov/" + a.pmid + "/") else None,
         publishedAt := ExtractPubDate(a.year, a.month, a.day, a.medline), updatedAt := None,
         pmid := if a.pmid != "" then Some(a.pmid) else None, doi := a.doi,
         nctId := ExtractNctId(Some(a.abstractText)), venue := Some(a.journal), authors := Some(a.authors),
         abstractOrText := Some(a.abstractText))
  }

  /** A record links to PubMed exactly when it has a PMID, and its NCT number comes from the abstract. */
  lemma RecordOfSpec(a: Article)
    ensures RecordOf(a).source == "pubmed"
    ensures RecordOf(a).url.Some? <==> RecordOf(a).pmid.Some?
    ensures RecordOf(a).pmid.Some? ==> RecordOf(a).url == Some("https://pubmed.ncbi.nlm.nih.gov/" + RecordOf(a).pmid.value + "/")
    ensures RecordOf(a).nctId.Some? ==> exists i: nat :: NctAt(a.abstractText, i) && RecordOf(a).nctId.value == a.abstractText[i..i + 11]
  {
    if a.abstractText != "" {
      NctSpec(a.abstractText);
    }
  }

  // ---------------------------------------------------------------- esearch pagination

  /** One esearch answer: the page of ids and the total `count` (as `int(count or 0)`). */
  datatype Page = Page(ids: seq<string>, count: int)

  /** An esearch request: where it starts and how many ids it asks for. */
  datatype Request = Request(retstart: nat, retmax: nat)

  /** The answers esearch gives, by request; `None` when the request fails after its retries. */
  type Esearch = Request -> Option<Page>

  /** The ids gathered, the requests made, and whether a request failed. */
  datatype Paging = Paging(ids: seq<string>, requests: seq<Request>, failed: bool)

  /** The pagination loop of `search` from `acc` gathered and `retstart` on. */
  function Paged(retmax: nat, esearch: Esearch, acc: seq<string>, retstart: nat): Paging
    decreases retmax - |acc|
  {
    if |acc| >= retmax then Paging(acc, [], false)
    else
      var req := Request(retstart, Min(EsearchStep, retmax - |acc|));
      match esearch(req)
      case None => Paging(acc, [req], true)
      case Some(p) =>
        if p.ids == [] then Paging(acc, [req], false)
        else if retstart + |p.ids| >= p.count then Paging(acc + p.ids, [req], false)
        else
          var rest := Paged(retmax, esearch, acc + p.ids, retstart + |p.ids|);
          rest.(requests := [req] + rest.requests)
  }

  function Min(a: int, b: int): int { if a <= b then a else b }

  /** `search`: no ids for a blank query or a non-positive `retmax`; `None` when a request fails. */
  function Search(query: string, retmax: int, esearch: Esearch): Option<seq<string>> {
    if Strip(query) == "" || retmax <= 0 then Some([])
    else
      var p := Paged(retmax, esearch, [], 0);
      if p.failed then None else Some(Take(Distinct(p.ids), retmax))
  }

  /** `search` with its pagination loop and its seen-set loop. */
  method SearchIds(query: string, retmax: int, esearch: Esearch) returns (r: Option<seq<string>>)
    ensures r == Search(query, retmax, esearch)
  {
    if Strip(query) == "" || retmax <= 0 {
      return Some([]);
    }
    ghost var whole := Paged(retmax, esearch, [], 0);
    var all: seq<string> := [];
    var retstart: nat := 0;
    while |all| < retmax
      invariant Paged(retmax, esearch, all, retstart).ids == whole.ids
      invariant Paged(retmax, esearch, all, retstart).failed == whole.failed
      decreases retmax - |all|
    {
      var step := Min(EsearchStep, retmax - |all|);
      var answer := esearch(Request(retstart, step));
      if answer.None? {
        return None;
      }
      var idlist := answer.value.ids;
      if idlist == [] {
        break;
      }
      all := all + idlist;
      retstart := retstart + |idlist|;
      if retstart >= answer.value.count {
        break;
      }
    }
    var deduped := DistinctInOrder(all);
    r := Some(Take(deduped, retmax));
  }

  /**
   * Every request asks for between 1 and 200 ids; the first starts at 0 and each later one
   * starts where the previous page ended; every request but the last got a non-empty page.
   */
  lemma {:induction false} PagingSpec(retmax: nat, esearch: Esearch, acc: seq<string>, retstart: nat)
    ensures var p := Paged(retmax, esearch, acc, retstart);
      && (forall k | 0 <= k < |p.requests| :: 1 <= p.requests[k].retmax <= EsearchStep)
      && (p.requests != [] ==> p.requests[0].retstart == retstart)
      && (forall k | 0 <= k < |p.requests| - 1 ::
            && esearch(p.requests[k]).Some? && esearch(p.requests[k]).value.ids != []
            && p.requests[k + 1].retstart == p.requests[k].retstart + |esearch(p.requests[k]).value.ids|)
      && acc <= p.ids
    decreases retmax - |acc|
  {
    if |acc| < retmax {
      var req := Request(retstart, Min(EsearchStep, retmax - |acc|));
      if esearch(req).Some? && esearch(req).value.ids != [] {
        var pg := esearch(req).value;
        if retstart + |pg.ids| < pg.count {
          PagingSpec(retmax, esearch, acc + pg.ids, retstart + |pg.ids|);
        }
      }
    }
  }

  /** The ids of the answered pages of `requests`, in order. */
  function PageIds(esearch: Esearch, requests: seq<Request>): seq<string>
    decreases |requests|
  {
    if requests == [] then []
    else (if esearch(requests[0]).Some? then esearch(requests[0]).value.ids else []) + PageIds(esearch, requests[1..])
  }

  /** The ids gathered are those already gathered followed by the pages' ids, in request order. */
  lemma {:induction false} PagingIds(retmax: nat, esearch: Esearch, acc: seq<string>, retstart: nat)
    ensures Paged(retmax, esearch, acc, retstart).ids == acc + PageIds(esearch, Paged(retmax, esearch, acc, retstart).requests)
    decreases retmax - |acc|
  {
    var p := Paged(retmax, esearch, acc, retstart);
    if |acc| < retmax {
      var req := Request(retstart, Min(EsearchStep, retmax - |acc|));
      assert p.requests[0] == req;
      if esearch(req).Some? && esearch(req).value.ids != [] {
        var pg := esearch(req).value;
        if retstart + |pg.ids| < pg.count {
          var rest := Paged(retmax, esearch, acc + pg.ids, retstart + |pg.ids|);
          assert p.requests[1..] == rest.requests;
          PagingIds(retmax, esearch, acc + pg.ids, retstart + |pg.ids|);
          assert acc + (pg.ids + PageIds(esearch, rest.requests)) == acc + pg.ids + PageIds(esearch, rest.requests);
        } else {
          assert p.requests[1..] == [];
          assert pg.ids + [] == pg.ids;
        }
      } else {
        assert p.requests[1..] == [];
      }
    }
  }

  /** The ids returned are at most `retmax`, distinct, and each came from some page. */
  lemma SearchSpec(query: string, retmax: int, esearch: Esearch)
    ensures Strip(query) == "" || retmax <= 0 ==> Search(query, retmax, esearch) == Some([])
    ensures var r := Search(query, retmax, esearch);
      r.Some? ==>
        && |r.value| <= (if retmax < 0 then 0 else retmax)
        && (forall i, j | 0 <= i < j < |r.value| :: r.value[i] != r.value[j])
        && (forall x | x in r.value :: x in PageIds(esearch, Paged(retmax, esearch, [], 0).requests))
  {
    if Strip(query) != "" && retmax > 0 {
      var p := Paged(retmax, esearch, [], 0);
      DistinctFromSpec(p.ids, {});
      PagingIds(retmax, esearch, [], 0);
      var d := Distinct(p.ids);
      forall x | x in Take(d, retmax) ensures x in p.ids {
        assert x in d;
      }
    }
  }

  /**
   * The ids returned are the first `retmax` distinct ids in page order: taken in order,
   * each at its first occurrence, every one before any id left out, and none left out
   * unless `retmax` are kept.
   */
  lemma SearchInPageOrder(query: string, retmax: int, esearch: Esearch)
    ensures var r := Search(query, retmax, esearch);
      Strip(query) != "" && retmax > 0 && r.Some? ==>
        FirstDistinctOf(r.value, PageIds(esearch, Paged(retmax, esearch, [], 0).requests), retmax)
  {
    if Strip(query) != "" && retmax > 0 {
      var p := Paged(retmax, esearch, [], 0);
      PagingIds(retmax, esearch, [], 0);
      assert p.ids == PageIds(esearch, p.requests);
      FirstDistinct(p.ids, retmax);
    }
  }

  /** `test_pubmed_search_paginates`: five ids over pages of three and two, requests at 0 and 3. */
  lemma TwoPages(query: string)
    requires Strip(query) != ""
    ensures var esearch := (q: Request) => if q.retstart == 0 then Some(Page(["1", "2", "3"], 5)) else Some(Page(["4", "5"], 5));
      && Paged(5, esearch, [], 0) == Paging(["1", "2", "3", "4", "5"], [Request(0, 5), Request(3, 2)], false)
      && Search(query, 5, esearch) == Some(["1", "2", "3", "4", "5"])
  {
    var esearch := (q: Request) => if q.retstart == 0 then Some(Page(["1", "2", "3"], 5)) else Some(Page(["4", "5"], 5));
    var first: seq<string> := ["1", "2", "3"];
    var all: seq<string> := ["1", "2", "3", "4", "5"];
    assert esearch(Request(3, 2)) == Some(Page(["4", "5"], 5));
    assert first + ["4", "5"] == all;
    assert Paged(5, esearch, first, 3) == Paging(all, [Request(3, 2)], false);
    assert esearch(Request(0, 5)) == Some(Page(first, 5));
    DistinctOfDistinct(all);
  }

  /** A list without repeats is its own de-duplication. */
  lemma {:induction false} DistinctOfDistinct(xs: seq<string>)
    requires forall i, j | 0 <= i < j < |xs| :: xs[i] != xs[j]
    ensures Distinct(xs) == xs
  {
    DistinctFromFresh(xs, {});
  }

  lemma {:induction false} DistinctFromFresh(xs: seq<string>, seen: set<string>)
    requires forall i, j | 0 <= i < j < |xs| :: xs[i] != xs[j]
    requires forall i | 0 <= i < |xs| :: xs[i] !in seen
    ensures DistinctFrom(xs, seen) == xs
    decreases |xs|
  {
    if xs != [] {
      DistinctFromFresh(xs[1..], seen + {xs[0]});
    }
  }

  // ---------------------------------------------------------------- efetch batching

  /** `pmids[i : i + 200]` for i = 0, 200, 400, ... */
  function Batches(pmids: seq<string>): seq<seq<string>>
    decreases |pmids|
  {
    if pmids == [] then [] else [Take(pmids, EfetchBatchSize)] + Batches(pmids[|Take(pmids, EfetchBatchSize)|..])
  }

  /** The articles efetch returns for a batch of ids; `None` when the request fails after its retries. */
  type Efetch = seq<string> -> Option<seq<Article>>

  /** The records of the batches in order, or `None` if a batch fails. */
  function Fetched(batches: seq<seq<string>>, efetch: Efetch): Option<seq<Item>>
    decreases |batches|
  {
    if batches == [] then Some([])
    else
      match (efetch(batches[0]), Fetched(batches[1..], efetch))
      case (Some(arts), Some(rest)) => Some(ArticleRecords(arts) + rest)
      case _ => None
  }

  function ArticleRecords(arts: seq<Article>): (r: seq<Item>)
    ensures |r| == |arts| && forall k | 0 <= k < |arts| :: r[k] == RecordOf(arts[k])
  {
    seq(|arts|, k requires 0 <= k < |arts| => RecordOf(arts[k]))
  }

  /** `fetch` */
  method FetchRecords(pmids: seq<string>, efetch: Efetch) returns (r: Option<seq<Item>>)
    ensures r == Fetched(Batches(pmids), efetch)
  {
    if pmids == [] {
      return Some([]);
    }
    var parsed: seq<Item> := [];
    var i := 0;
    assert pmids[i..] == pmids;
    assert Fetched(Batches(pmids), efetch).Some? ==> [] + Fetched(Batches(pmids), efetch).value == Fetched(Batches(pmids), efetch).value;
    while i < |pmids|
      invariant i <= |pmids|
      invariant Fetched(Batches(pmids), efetch) == Prefixed(parsed, Fetched(Batches(pmids[i..]), efetch))
      decreases |pmids| - i
    {
      var batch := Take(pmids[i..], EfetchBatchSize);
      assert pmids[i..][|batch|..] == pmids[i + |batch|..];
      var answer := efetch(batch);
      if answer.None? {
        return None;
      }
      ghost var rest := Fetched(Batches(pmids[i + |batch|..]), efetch);
      assert Fetched(Batches(pmids[i..]), efetch) == if rest.Some? then Some(ArticleRecords(answer.value) + rest.value) else None;
      if rest.Some? {
        assert parsed + (ArticleRecords(answer.value) + rest.value) == parsed + ArticleRecords(answer.value) + rest.value;
      }
      parsed := parsed + ArticleRecords(answer.value);
      i := i + |batch|;
    }
    assert pmids[i..] == [];
    assert parsed + [] == parsed;
    r := Some(parsed);
  }

  /** `pre` in front of a result, a failure staying a failure. */
  function Prefixed(pre: seq<Item>, r: Option<seq<Item>>): Option<seq<Item>> {
    if r.Some? then Some(pre + r.value) else None
  }

  /** The batches are non-empty, hold at most 200 ids each, and put together give the ids back. */
  lemma {:induction false} BatchesSpec(pmids: seq<string>)
    ensures forall k | 0 <= k < |Batches(pmids)| :: 1 <= |Batches(pmids)[k]| <= EfetchBatchSize
    ensures Concat(Batches(pmids)) == pmids
    decreases |pmids|
  {
    if pmids != [] {
      var b := Take(pmids, EfetchBatchSize);
      BatchesSpec(pmids[|b|..]);
      assert pmids == b + pmids[|b|..];
    }
  }

  function Concat(xss: seq<seq<string>>): seq<string>
    decreases |xss|
  {
    if xss == [] then [] else xss[0] + Concat(xss[1..])
  }
}
