/**
 * The ClinicalTrials.gov connector: the nested-dictionary lookup `_safe_get`, the mapping of
 * one study to a record, and the token-paginated `search` with its limit. The API's answers
 * (after the retries of `_request_with_retry`) are inputs, one per request in the order the
 * requests are sent; a missing answer stands for the `RuntimeError` the retries end in.
 */
module ClinicalTrials {
  import opened Wrappers
  import opened Strings
  import opened Records
  import Collect

  // ---------------------------------------------------------------- JSON values and _safe_get

  /** A decoded JSON value. */
  datatype Value =
    | Null
    | Bool(b: bool)
    | Num(n: int)
    | Str(s: string)
    | Arr(elems: seq<Value>)
    | Obj(fields: map<string, Value>)

  /** `d.get(k)` on a dictionary: the value, or `None` when the key is absent. */
  function Get(fields: map<string, Value>, k: string): Value {
    if k in fields then fields[k] else Null
  }

  /** `_safe_get` as the recursion its loop unrolls to. */
  function SafeGetOf(cur: Value, path: seq<string>, default: Value): Value
    decreases |path|
  {
    if path == [] then (if cur.Null? then default else cur)
    else if !cur.Obj? then default
    else SafeGetOf(Get(cur.fields, path[0]), path[1..], default)
  }

  /** `_safe_get(obj, *path, default=default)` */
  method SafeGet(obj: Value, path: seq<string>, default: Value) returns (r: Value)
    ensures r == SafeGetOf(obj, path, default)
  {
    var cur := obj;
    var i := 0;
    while i < |path|
      invariant i <= |path|
      invariant SafeGetOf(cur, path[i..], default) == SafeGetOf(obj, path, default)
    {
      if !cur.Obj? {
        return default;
      }
      assert path[i..][1..] == path[i + 1..];
      cur := Get(cur.fields, path[i]);
      i := i + 1;
    }
    r := if cur.Null? then default else cur;
  }

  /** The value at `path` when every step is a dictionary holding the next key; `None` otherwise. */
  function Lookup(v: Value, path: seq<string>): Option<Value>
    decreases |path|
  {
    if path == [] then Some(v)
    else if v.Obj? && path[0] in v.fields then Lookup(v.fields[path[0]], path[1..])
    else None
  }

  /**
   * `_safe_get` gives the value at the path when every step is a dictionary holding the next
   * key and that value is not `None`, and the default in every other case.
   */
  lemma {:induction false} SafeGetSpec(v: Value, path: seq<string>, default: Value)
    ensures SafeGetOf(v, path, default) == if Lookup(v, path).Some? && !Lookup(v, path).value.Null? then Lookup(v, path).value else default
    decreases |path|
  {
    if path != [] && v.Obj? {
      SafeGetSpec(Get(v.fields, path[0]), path[1..], default);
      if path[0] !in v.fields {
        NullPath(path[1..], default);
      }
    }
  }

  /** Walking on from a `None` always ends in the default. */
  lemma NullPath(path: seq<string>, default: Value)
    ensures SafeGetOf(Null, path, default) == default
  {
  }

  /** The text of a value that is a string; anything else is no text. */
  function TextOf(v: Value): Option<string> {
    if v.Str? then Some(v.s) else None
  }

  // ---------------------------------------------------------------- one study

  /**
   * The parts of a study's `protocolSection` the record is built from, as the modules'
   * `.get` calls return them: `statusModule` stays a dictionary for `_safe_get`, the
   * intervention names and outcome measures are one entry per list element.
   */
  datatype Study = Study(
    nctId: Option<string>,
    briefTitle: Option<string>,
    officialTitle: Option<string>,
    statusModule: map<string, Value>,
    conditions: seq<string>,
    interventionNames: seq<Option<string>>,
    outcomeMeasures: seq<Option<string>>,
    briefSummary: Option<string>,
    detailedDescription: Option<string>,
    phases: seq<string>,
    studyType: Option<string>
  )

  /** `[x for x in xs if x]`, as the source's append loops build it. */
  method PresentValues(xs: seq<Option<string>>) returns (out: seq<string>)
    ensures out == Present(xs)
  {
    out := [];
    var i := 0;
    while i < |xs|
      invariant i <= |xs|
      invariant out + Present(xs[i..]) == Present(xs)
    {
      assert xs[i..][1..] == xs[i + 1..];
      if Truthy(xs[i]) {
        out := out + [xs[i].value];
      }
      i := i + 1;
    }
    assert xs[i..] == [];
  }

  /** `a or b or c` on optional strings. */
  function FirstTruthy(a: Option<string>, b: Option<string>, c: string): string {
    if Truthy(a) then a.value else if Truthy(b) then b.value else c
  }

  /** The record `search` appends for one study. */
  function StudyRecord(s: Study): Item {
    var parts := Present([s.briefSummary, s.detailedDescription]);
    Item(source := "clinicaltrials",
         title := FirstTruthy(s.briefTitle, s.officialTitle, "Untitled study"),
         url := Some(if Truthy(s.nctId) then "https://clinicaltrials.gov/study/" + s.nctId.value else "https://clinicaltrials.gov"),
         publishedAt := None,
         updatedAt := TextOf(SafeGetOf(Obj(s.statusModule), ["lastUpdatePostDateStruct", "date"], Null)),
         pmid := None, doi := None, nctId := s.nctId,
         venue := Some("ClinicalTrials.gov"), authors := None,
         abstractOrText := Some(Strip(Join("\n", parts))),
         conditions := Some(Join(", ", s.conditions)),
         interventions := Some(Join(", ", Present(s.interventionNames))),
         studyType := s.studyType,
         phase := Some(Join(", ", s.phases)),
         status := TextOf(Get(s.statusModule, "overallStatus")),
         primaryEndpoints := Some(Join(", ", Present(s.outcomeMeasures))))
  }

  /**
   * The body of `search`'s study loop for one study: the record `StudyRecord` describes
   * (`record` is `StudyRecord`, passed on so that callers reason about it by name only).
   */
  method StudyToRecord(s: Study, ghost record: Study -> Item) returns (item: Item)
    requires Builds(record)
    ensures item == record(s)
  {
    var updated := SafeGet(Obj(s.statusModule), ["lastUpdatePostDateStruct", "date"], Null);
    var interventions := PresentValues(s.interventionNames);
    var endpoints := PresentValues(s.outcomeMeasures);
    var textParts := PresentValues([s.briefSummary, s.detailedDescription]);
    item := Item(source := "clinicaltrials",
                 title := FirstTruthy(s.briefTitle, s.officialTitle, "Untitled study"),
                 url := Some(if Truthy(s.nctId) then "https://clinicaltrials.gov/study/" + s.nctId.value else "https://clinicaltrials.gov"),
                 publishedAt := None,
                 updatedAt := TextOf(updated),
                 pmid := None, doi := None, nctId := s.nctId,
                 venue := Some("ClinicalTrials.gov"), authors := None,
                 abstractOrText := Some(Strip(Join("\n", textParts))),
                 conditions := Some(Join(", ", s.conditions)),
                 interventions := Some(Join(", ", interventions)),
                 studyType := s.studyType,
                 phase := Some(Join(", ", s.phases)),
                 status := TextOf(Get(s.statusModule, "overallStatus")),
                 primaryEndpoints := Some(Join(", ", endpoints)));
    assert item == StudyRecord(s);
  }

  /**
   * The title is the brief title, else the official title, else "Untitled study"; the link
   * is the study page exactly when the study has an NCT number; a single phase, intervention
   * or endpoint is the field itself; the update date is the one under
   * `lastUpdatePostDateStruct` when that holds a string.
   */
  lemma StudyRecordSpec(s: Study)
    ensures var r := StudyRecord(s);
      && r.source == "clinicaltrials" && r.venue == Some("ClinicalTrials.gov") && r.nctId == s.nctId
      && (Truthy(s.briefTitle) ==> r.title == s.briefTitle.value)
      && (!Truthy(s.briefTitle) && Truthy(s.officialTitle) ==> r.title == s.officialTitle.value)
      && (!Truthy(s.briefTitle) && !Truthy(s.officialTitle) ==> r.title == "Untitled study")
      && r.title != ""
      && (r.url == Some("https://clinicaltrials.gov") <==> !Truthy(s.nctId))
      && (|s.phases| == 1 ==> r.phase == Some(s.phases[0]))
      && (forall x | x in s.interventionNames && Truthy(x) :: x.value in Present(s.interventionNames))
    ensures "lastUpdatePostDateStruct" in s.statusModule && s.statusModule["lastUpdatePostDateStruct"].Obj?
        && "date" in s.statusModule["lastUpdatePostDateStruct"].fields
        && s.statusModule["lastUpdatePostDateStruct"].fields["date"].Str?
        ==> StudyRecord(s).updatedAt == Some(s.statusModule["lastUpdatePostDateStruct"].fields["date"].s)
  {
    var r := StudyRecord(s);
    if Truthy(s.nctId) {
      var u := "https://clinicaltrials.gov/study/" + s.nctId.value;
      assert |u| > |"https://clinicaltrials.gov"|;
    }
    PresentSpec(s.interventionNames);
    forall x | x in s.interventionNames && Truthy(x) ensures x.value in Present(s.interventionNames) {
      var k :| 0 <= k < |s.interventionNames| && s.interventionNames[k] == x;
    }
  }

  /** `record` builds what `StudyRecord` builds. */
  ghost predicate Builds(record: Study -> Item) {
    forall s {:trigger StudyRecord(s)} :: record(s) == StudyRecord(s)
  }

  // ---------------------------------------------------------------- search

  /** The page size asked for: `min(100, limit)`. */
  function PageSize(limit: nat): nat {
    if limit < 100 then limit else 100
  }

  /** One answer of the API: the page's studies and its `nextPageToken`. */
  datatype Payload = Payload(studies: seq<Study>, nextToken: Option<string>)

  /** The parameters a request varies: `query.term`, `pageSize` and `pageToken` (absent as `None`). */
  datatype Req = Req(term: string, pageSize: nat, token: Option<string>)

  /** The items gathered, the requests sent, and whether a request failed. */
  datatype Crawl = Crawl(items: seq<Item>, requests: seq<Req>, failed: bool)

  /**
   * The loop of `search` from the `k`-th request on, with `acc` gathered and `token` to send:
   * each page's studies are appended until `limit` is reached, and the loop goes on only
   * while the page names a next token.
   */
  function Pages(record: Study -> Item, query: string, limit: nat, answers: seq<Option<Payload>>, k: nat, token: Option<string>, acc: seq<Item>): Crawl
    requires |acc| < limit
    decreases |answers| - k
  {
    var req := Req(query, PageSize(limit), token);
    if k >= |answers| || answers[k].None? then Crawl(acc, [req], true)
    else
      var pl := answers[k].value;
      var taken := acc + Collect.Built(Take(pl.studies, limit - |acc|), record);
      if |taken| >= limit || !Truthy(pl.nextToken) then Crawl(taken, [req], false)
      else
        var rest := Pages(record, query, limit, answers, k + 1, pl.nextToken, taken);
        Crawl(rest.items, [req] + rest.requests, rest.failed)
  }

  /** `search(query, limit)`: `None` when a request fails. */
  function Search(query: string, limit: int, answers: seq<Option<Payload>>): Option<seq<Item>> {
    if Strip(query) == "" || limit <= 0 then Some([])
    else
      var c := Pages(StudyRecord, query, limit, answers, 0, None, []);
      if c.failed then None else Some(c.items)
  }

  /** The inner `for s in studies` loop: append records until the limit is reached. */
  method AppendStudies(items: seq<Item>, studies: seq<Study>, limit: nat, ghost record: Study -> Item) returns (out: seq<Item>)
    requires Builds(record)
    requires |items| < limit
    ensures out == items + Collect.Built(Take(studies, limit - |items|), record)
  {
    out := items;
    var j := 0;
    while j < |studies|
      invariant j <= |studies| && j <= limit - |items|
      invariant out == items + Collect.Built(studies[..j], record)
      invariant j < |studies| ==> |out| < limit
    {
      var item := StudyToRecord(studies[j], record);
      assert studies[..j + 1] == studies[..j] + [studies[j]];
      Collect.BuiltConcat(studies[..j], [studies[j]], record);
      out := out + [item];
      j := j + 1;
      if |out| >= limit {
        break;
      }
    }
    assert studies[..j] == Take(studies, limit - |items|);
  }

  /** `search` */
  method SearchStudies(query: string, limit: int, answers: seq<Option<Payload>>) returns (r: Option<seq<Item>>)
    ensures r == Search(query, limit, answers)
  {
    if Strip(query) == "" || limit <= 0 {
      return Some([]);
    }
    ghost var whole := Pages(StudyRecord, query, limit, answers, 0, None, []);
    var items: seq<Item> := [];
    var token: Option<string> := None;
    var k: nat := 0;
    while |items| < limit
      invariant k <= |answers|
      invariant |items| < limit ==>
        && Pages(StudyRecord, query, limit, answers, k, token, items).items == whole.items
        && Pages(StudyRecord, query, limit, answers, k, token, items).failed == whole.failed
      invariant |items| >= limit ==> !whole.failed && items == whole.items
      decreases |answers| - k
    {
      if k >= |answers| || answers[k].None? {
        return None;
      }
      var payload := answers[k].value;
      items := AppendStudies(items, payload.studies, limit, StudyRecord);
      if |items| >= limit {
        break;
      }
      token := payload.nextToken;
      if !Truthy(token) {
        break;
      }
      k := k + 1;
    }
    r := Some(items);
  }

  // ---------------------------------------------------------------- properties

  /** The studies of the answered pages from the `k`-th on, up to the first failed request. */
  function Answered(answers: seq<Option<Payload>>, k: nat): seq<Study>
    decreases |answers| - k
  {
    if k >= |answers| || answers[k].None? then [] else answers[k].value.studies + Answered(answers, k + 1)
  }

  /** The studies of the `n` pages answered to the requests from the `k`-th on. */
  function Requested(answers: seq<Option<Payload>>, k: nat, n: nat): seq<Study>
    decreases n
  {
    if n == 0 || k >= |answers| || answers[k].None? then [] else answers[k].value.studies + Requested(answers, k + 1, n - 1)
  }

  /** Taking the records of a page after `acc` is taking the first of all of them. */
  lemma TakeBuilt(acc: seq<Item>, xs: seq<Study>, limit: nat, record: Study -> Item)
    requires |acc| <= limit
    ensures Take(acc + Collect.Built(xs, record), limit) == acc + Collect.Built(Take(xs, limit - |acc|), record)
  {
    var ys := Take(xs, limit - |acc|);
    if |xs| > limit - |acc| {
      assert xs == ys + xs[|ys|..];
      Collect.BuiltConcat(ys, xs[|ys|..], record);
      assert (acc + Collect.Built(xs, record))[..limit] == acc + Collect.Built(ys, record);
    }
  }

  /** Request `j + 1` sends the non-empty `nextPageToken` of the answer to request `j`, the `k`-th one sent. */
  predicate Link(requests: seq<Req>, answers: seq<Option<Payload>>, k: nat, j: nat)
    requires j + 1 < |requests|
  {
    && k + j < |answers| && answers[k + j].Some?
    && Truthy(answers[k + j].value.nextToken)
    && requests[j + 1].token == answers[k + j].value.nextToken
  }

  /** Each request after the first sends the non-empty `nextPageToken` of the answer to the one before. */
  predicate Chained(requests: seq<Req>, answers: seq<Option<Payload>>, k: nat) {
    forall j: nat | j + 1 < |requests| :: Link(requests, answers, k, j)
  }

  lemma ChainedCons(first: Req, rest: seq<Req>, answers: seq<Option<Payload>>, k: nat)
    requires Chained(rest, answers, k + 1) && |rest| >= 1
    requires k < |answers| && answers[k].Some? && Truthy(answers[k].value.nextToken)
    requires rest[0].token == answers[k].value.nextToken
    ensures Chained([first] + rest, answers, k)
  {
    var c := [first] + rest;
    forall j: nat | j + 1 < |c| ensures Link(c, answers, k, j) {
      assert c[j + 1] == rest[j];
      if j > 0 {
        assert Link(rest, answers, k + 1, j - 1);
      }
    }
  }

  /**
   * Every request sends the query and a page size of `min(100, limit)`; the first sends the
   * given token and each later one the previous page's non-empty `nextPageToken`.
   */
  lemma {:induction false} PagesRequests(record: Study -> Item, query: string, limit: nat, answers: seq<Option<Payload>>, k: nat, token: Option<string>, acc: seq<Item>)
    requires |acc| < limit
    ensures var c := Pages(record, query, limit, answers, k, token, acc);
      |c.requests| >= 1 && c.requests[0].token == token
    ensures var c := Pages(record, query, limit, answers, k, token, acc);
      forall i | 0 <= i < |c.requests| :: c.requests[i].term == query && c.requests[i].pageSize == PageSize(limit)
    ensures Chained(Pages(record, query, limit, answers, k, token, acc).requests, answers, k)
    decreases |answers| - k
  {
    var c := Pages(record, query, limit, answers, k, token, acc);
    if k < |answers| && answers[k].Some? {
      var pl := answers[k].value;
      var taken := acc + Collect.Built(Take(pl.studies, limit - |acc|), record);
      if !(|taken| >= limit || !Truthy(pl.nextToken)) {
        var rest := Pages(record, query, limit, answers, k + 1, pl.nextToken, taken);
        PagesRequests(record, query, limit, answers, k + 1, pl.nextToken, taken);
        assert c.requests == [Req(query, PageSize(limit), token)] + rest.requests;
        ChainedCons(Req(query, PageSize(limit), token), rest.requests, answers, k);
      } else {
        assert c.requests == [Req(query, PageSize(limit), token)];
      }
    }
  }

  /**
   * The items are at most `limit`, and they are the pages' studies in order with none
   * skipped: a crawl that did not fail returns the first `limit` records of the studies of
   * every page it requested. A crawl that neither failed nor reached the limit stopped at a
   * page without a next token.
   */
  lemma PagesItems(record: Study -> Item, query: string, limit: nat, answers: seq<Option<Payload>>, k: nat, token: Option<string>, acc: seq<Item>)
    requires |acc| < limit
    ensures var c := Pages(record, query, limit, answers, k, token, acc);
      && |c.items| <= limit
      && c.items <= acc + Collect.Built(Answered(answers, k), record)
      && (!c.failed && |c.items| < limit ==>
            k + |c.requests| - 1 < |answers| && answers[k + |c.requests| - 1].Some?
            && !Truthy(answers[k + |c.requests| - 1].value.nextToken))
      && (!c.failed ==> c.items == Take(acc + Collect.Built(Requested(answers, k, |c.requests|), record), limit))
  {
    PagesBounds(record, query, limit, answers, k, token, acc);
    PagesValue(record, query, limit, answers, k, token, acc);
  }

  /** The bound, the order and the stopping page of the crawl. */
  lemma {:induction false} PagesBounds(record: Study -> Item, query: string, limit: nat, answers: seq<Option<Payload>>, k: nat, token: Option<string>, acc: seq<Item>)
    requires |acc| < limit
    ensures var c := Pages(record, query, limit, answers, k, token, acc);
      && |c.items| <= limit
      && c.items <= acc + Collect.Built(Answered(answers, k), record)
      && (!c.failed && |c.items| < limit ==>
            k + |c.requests| - 1 < |answers| && answers[k + |c.requests| - 1].Some?
            && !Truthy(answers[k + |c.requests| - 1].value.nextToken))
    decreases |answers| - k
  {
    if k < |answers| && answers[k].Some? {
      var pl := answers[k].value;
      var page := Take(pl.studies, limit - |acc|);
      var taken := acc + Collect.Built(page, record);
      var later := Collect.Built(Answered(answers, k + 1), record);
      assert Answered(answers, k) == pl.studies + Answered(answers, k + 1);
      Collect.BuiltConcat(pl.studies, Answered(answers, k + 1), record);
      Collect.BuiltPrefix(page, pl.studies, record);
      assert acc + Collect.Built(Answered(answers, k), record) == acc + Collect.Built(pl.studies, record) + later;
      if !(|taken| >= limit || !Truthy(pl.nextToken)) {
        PagesBounds(record, query, limit, answers, k + 1, pl.nextToken, taken);
        assert page == pl.studies;
      }
    }
  }

  /** A crawl that did not fail returns the first `limit` records of the studies of every page it requested. */
  lemma {:induction false} PagesValue(record: Study -> Item, query: string, limit: nat, answers: seq<Option<Payload>>, k: nat, token: Option<string>, acc: seq<Item>)
    requires |acc| < limit
    ensures var c := Pages(record, query, limit, answers, k, token, acc);
      !c.failed ==> c.items == Take(acc + Collect.Built(Requested(answers, k, |c.requests|), record), limit)
    decreases |answers| - k
  {
    if k < |answers| && answers[k].Some? {
      var pl := answers[k].value;
      var page := Take(pl.studies, limit - |acc|);
      var taken := acc + Collect.Built(page, record);
      TakeBuilt(acc, pl.studies, limit, record);
      if |taken| >= limit || !Truthy(pl.nextToken) {
        assert Requested(answers, k, 1) == pl.studies + Requested(answers, k + 1, 0);
      } else {
        assert page == pl.studies;
        PagesValue(record, query, limit, answers, k + 1, pl.nextToken, taken);
        var rest := Pages(record, query, limit, answers, k + 1, pl.nextToken, taken);
        var n := |rest.requests|;
        assert |Pages(record, query, limit, answers, k, token, acc).requests| == n + 1;
        assert Requested(answers, k, n + 1) == pl.studies + Requested(answers, k + 1, n);
        Collect.BuiltConcat(pl.studies, Requested(answers, k + 1, n), record);
        assert acc + Collect.Built(Requested(answers, k, n + 1), record)
            == taken + Collect.Built(Requested(answers, k + 1, n), record);
      }
    }
  }

  /**
   * `search` returns nothing for a blank query or a non-positive limit; otherwise its items
   * are at most `limit`, taken in order from the pages it was answered: the first `limit`
   * records of the studies of every page it requested, all of them when there are fewer.
   */
  lemma SearchSpec(query: string, limit: int, answers: seq<Option<Payload>>)
    ensures Strip(query) == "" || limit <= 0 ==> Search(query, limit, answers) == Some([])
    ensures Search(query, limit, answers).Some? ==>
      && |Search(query, limit, answers).value| <= (if limit < 0 then 0 else limit)
      && Search(query, limit, answers).value <= Collect.Built(Answered(answers, 0), StudyRecord)
    ensures Strip(query) != "" && limit > 0 && Search(query, limit, answers).Some? ==>
      var n := |Pages(StudyRecord, query, limit, answers, 0, None, []).requests|;
      Search(query, limit, answers).value == Take(Collect.Built(Requested(answers, 0, n), StudyRecord), limit)
  {
    if Strip(query) != "" && limit > 0 {
      PagesItems(StudyRecord, query, limit, answers, 0, None, []);
      assert [] + Collect.Built(Answered(answers, 0), StudyRecord) == Collect.Built(Answered(answers, 0), StudyRecord);
      var n := |Pages(StudyRecord, query, limit, answers, 0, None, []).requests|;
      assert [] + Collect.Built(Requested(answers, 0, n), StudyRecord) == Collect.Built(Requested(answers, 0, n), StudyRecord);
    }
  }

  /**
   * `test_clinicaltrials_search_paginates`: a limit of 2 over a first page of one study naming
   * a next token and a second page of one study gives both records, from two requests of page
   * size 2, the second sending the token.
   */
  lemma TwoPages(record: Study -> Item, query: string, s1: Study, s2: Study, t: string)
    requires t != ""
    ensures var answers := [Some(Payload([s1], Some(t))), Some(Payload([s2], None))];
      && Pages(record, query, 2, answers, 0, None, []) == Crawl([record(s1), record(s2)], [Req(query, 2, None), Req(query, 2, Some(t))], false)
  {
    var answers := [Some(Payload([s1], Some(t))), Some(Payload([s2], None))];
    assert Collect.Built(Take([s1], 2), record) == [record(s1)];
    assert Collect.Built(Take([s2], 1), record) == [record(s2)];
    assert Pages(record, query, 2, answers, 1, Some(t), [record(s1)]) == Crawl([record(s1), record(s2)], [Req(query, 2, Some(t))], false);
  }
}
