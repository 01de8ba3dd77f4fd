/**
 * Citation counts from OpenAlex: DOI normalisation, cache freshness and the cache-first
 * lookup with a bounded number of attempts. The HTTP responses and the age of a cached
 * timestamp are inputs; the citation cache is the store's own table.
 */
module OpenAlex {
  import opened Wrappers
  import opened Strings
  import Db

  /** `MAX_RETRIES` */
  const MaxRetries: nat := 2

  /** `CITATION_CACHE_TTL_DAYS` */
  const CacheTtlDays: int := 14

  // ---------------------------------------------------------------- DOI normalisation

  /** `s` with the prefix `p` removed when it starts with it. */
  function DropPrefix(s: string, p: string): string {
    if p <= s then s[|p|..] else s
  }

  /** `re.sub(r"^https?://(dx\.)?doi\.org/", "", d)`: the four forms exclude one another. */
  function DropDoiUrl(d: string): string {
    if "https://dx.doi.org/" <= d then d[19..]
    else if "http://dx.doi.org/" <= d then d[18..]
    else if "https://doi.org/" <= d then d[16..]
    else if "http://doi.org/" <= d then d[15..]
    else d
  }

  predicate StartsWithDoiUrl(d: string) {
    "https://dx.doi.org/" <= d || "http://dx.doi.org/" <= d || "https://doi.org/" <= d || "http://doi.org/" <= d
  }

  /** `_normalize_doi` */
  function NormalizeDoi(doi: string): string {
    Strip(DropPrefix(DropDoiUrl(Lower(Strip(doi))), "doi:"))
  }

  predicate LowerCased(s: string) {
    forall i | 0 <= i < |s| :: !('A' <= s[i] <= 'Z')
  }

  lemma LowerIsLowerCased(s: string)
    ensures LowerCased(Lower(s))
  {
  }

  lemma LowerCasedSuffix(s: string, k: nat)
    requires LowerCased(s) && k <= |s|
    ensures LowerCased(s[k..])
  {
    assert forall i | 0 <= i < |s[k..]| :: s[k..][i] == s[k + i];
  }

  lemma LowerCasedStrip(s: string)
    requires LowerCased(s)
    ensures LowerCased(Strip(s))
  {
    var l := LeadSpaces(s);
    LowerCasedSuffix(s, l);
    var m := s[l..];
    assert forall i | 0 <= i < |Strip(s)| :: Strip(s)[i] == m[i];
  }

  lemma LowerOfLowerCased(s: string)
    requires LowerCased(s)
    ensures Lower(s) == s
  {
  }

  /** A normalised DOI is trimmed and has no upper-case letter. */
  lemma NormalizeDoiShape(doi: string)
    ensures Trimmed(NormalizeDoi(doi)) && LowerCased(NormalizeDoi(doi))
  {
    var a := Lower(Strip(doi));
    LowerIsLowerCased(Strip(doi));
    var b := DropDoiUrl(a);
    if "https://dx.doi.org/" <= a { LowerCasedSuffix(a, 19); }
    else if "http://dx.doi.org/" <= a { LowerCasedSuffix(a, 18); }
    else if "https://doi.org/" <= a { LowerCasedSuffix(a, 16); }
    else if "http://doi.org/" <= a { LowerCasedSuffix(a, 15); }
    var c := DropPrefix(b, "doi:");
    if "doi:" <= b { LowerCasedSuffix(b, 4); }
    LowerCasedStrip(c);
    StripShape(c);
  }

  /** A bare DOI: trimmed, not empty, and not already carrying a URL or `doi:` prefix. */
  predicate BareDoi(d: string) {
    d != "" && Trimmed(d) && !StartsWithDoiUrl(Lower(d)) && !("doi:" <= Lower(d))
  }

  lemma LowerConcat(a: string, b: string)
    ensures Lower(a + b) == Lower(a) + Lower(b)
  {
  }

  lemma LowerKeepsSpace(s: string)
    ensures |Lower(s)| == |s|
    ensures forall i | 0 <= i < |s| :: IsSpace(Lower(s)[i]) == IsSpace(s[i])
  {
  }

  lemma TrimmedConcat(p: string, d: string)
    requires p != [] && !IsSpace(p[0]) && d != [] && Trimmed(d)
    ensures Trimmed(p + d)
  {
  }

  lemma LowerTrimmed(d: string)
    requires Trimmed(d)
    ensures Trimmed(Lower(d))
  {
    LowerKeepsSpace(d);
  }

  lemma NormalizeOfTrimmed(x: string)
    requires Trimmed(x)
    ensures NormalizeDoi(x) == Strip(DropPrefix(DropDoiUrl(Lower(x)), "doi:"))
  {
    StripOfTrimmed(x);
  }

  lemma DropHttpsDoiOrg(l: string)
    ensures DropDoiUrl("https://doi.org/" + l) == l
  {
    var u := "https://doi.org/" + l;
    assert u[4] == 's' && u[9] == 'o';
    assert "https://doi.org/" <= u;
  }

  lemma NoUrlAfterD(x: string)
    requires |x| > 0 && x[0] == 'd'
    ensures DropDoiUrl(x) == x
  {
  }

  lemma LowerHttpsDoiOrg(d: string)
    ensures Lower("https://doi.org/" + d) == "https://doi.org/" + Lower(d)
  {
    LowerConcat("https://doi.org/", d);
    LowerOfLowerCased("https://doi.org/");
  }

  lemma LowerDoiColon(d: string)
    ensures Lower("doi:" + d) == "doi:" + Lower(d)
  {
    LowerConcat("doi:", d);
    LowerOfLowerCased("doi:");
  }

  /** The remainder after the prefixes: a bare DOI's lower-case spelling is left as it is. */
  lemma BareTail(d: string)
    requires BareDoi(d)
    ensures Strip(DropPrefix(Lower(d), "doi:")) == Lower(d)
  {
    LowerTrimmed(d);
    StripOfTrimmed(Lower(d));
  }

  lemma BareFormNormal(d: string)
    requires BareDoi(d)
    ensures NormalizeDoi(d) == Lower(d)
  {
    NormalizeOfTrimmed(d);
    BareTail(d);
  }

  lemma UrlFormNormal(d: string)
    requires BareDoi(d)
    ensures NormalizeDoi("https://doi.org/" + d) == Lower(d)
  {
    var u := "https://doi.org/" + d;
    TrimmedConcat("https://doi.org/", d);
    NormalizeOfTrimmed(u);
    LowerHttpsDoiOrg(d);
    DropHttpsDoiOrg(Lower(d));
    BareTail(d);
  }

  lemma PrefixedFormNormal(d: string)
    requires BareDoi(d)
    ensures NormalizeDoi("doi:" + d) == Lower(d)
  {
    var p := "doi:" + d;
    TrimmedConcat("doi:", d);
    NormalizeOfTrimmed(p);
    LowerDoiColon(d);
    var lp := "doi:" + Lower(d);
    NoUrlAfterD(lp);
    assert DropPrefix(lp, "doi:") == Lower(d);
    LowerTrimmed(d);
    StripOfTrimmed(Lower(d));
  }

  /**
   * The URL form, the `doi:` form and the bare form of one DOI normalise to the same key,
   * its lower-case spelling.
   */
  lemma DoiFormsAgree(d: string)
    requires BareDoi(d)
    ensures NormalizeDoi(d) == Lower(d)
    ensures NormalizeDoi("https://doi.org/" + d) == Lower(d)
    ensures NormalizeDoi("doi:" + d) == Lower(d)
  {
    BareFormNormal(d);
    UrlFormNormal(d);
    PrefixedFormNormal(d);
  }

  // ---------------------------------------------------------------- freshness

  /**
   * `_is_fresh`: `ageDays` stands for parsing the timestamp and subtracting it from the
   * current time (None when `fromisoformat` fails).
   */
  predicate IsFresh(fetchedAt: string, ttlDays: int, ageDays: string -> Option<real>) {
    ageDays(fetchedAt).Some? && ageDays(fetchedAt).value <= ttlDays as real
  }

  // ---------------------------------------------------------------- responses

  /** The `cited_by_count` field of a response body. */
  datatype Count = IntCount(n: int) | StrCount(s: string) | OtherCount

  /**
   * One attempt's outcome: status 404, a retryable status (429 or 5xx), any other failure
   * (an error status or an exception), or a body.
   */
  datatype Response = NotFound | Throttled | Failed | Found(count: Count)

  /** `int(count)` for an int or a string of digits, else None. */
  function NormalizedCount(c: Count): Option<int> {
    match c
    case IntCount(n) => Some(n)
    case StrCount(s) => if s != "" && AllDigits(s) then Some(ParseNat(s)) else None
    case OtherCount => None
  }

  /** A count sent as its decimal string reads back as the count. */
  lemma NormalizedCountOfString(n: nat)
    ensures NormalizedCount(StrCount(NatToString(n))) == Some(n)
  {
    ParseNatToString(n);
    NatToStringDigits(n);
  }

  /** The outcome of attempt `k`; attempts past the given responses fail. */
  function Attempt(responses: seq<Response>, k: nat): Response {
    if k < |responses| then responses[k] else Failed
  }

  /**
   * The answer of the first decisive attempt from `k` on within `MaxRetries` attempts: a
   * 404 answers None, a body answers its normalised count; None when no attempt decides.
   */
  function DecisionFrom(responses: seq<Response>, k: nat): Option<Option<int>>
    decreases MaxRetries - k
  {
    if k >= MaxRetries then None
    else match Attempt(responses, k)
      case NotFound => Some(None)
      case Found(c) => Some(NormalizedCount(c))
      case _ => DecisionFrom(responses, k + 1)
  }

  // ---------------------------------------------------------------- the lookup

  /** The cache key `get_citations` uses: None for a missing or blank DOI or an empty normal form. */
  function DoiKey(doi: Option<string>): Option<string> {
    if !Truthy(doi) || NormalizeDoi(doi.value) == "" then None else Some(NormalizeDoi(doi.value))
  }

  /**
   * The lookup for a usable key, as a function of the cache: the count returned and the
   * cache after the call.
   */
  function Citations(cache: map<string, Db.CitationRow>, key: string, ageDays: string -> Option<real>,
                     responses: seq<Response>, now: string): (Option<int>, map<string, Db.CitationRow>)
  {
    var cached := Db.CacheGet(cache, key);
    if cached.Some? && IsFresh(cached.value.fetchedAt, CacheTtlDays, ageDays) then (cached.value.citedByCount, cache)
    else match DecisionFrom(responses, 0)
      case Some(v) => (v, Db.CacheSet(cache, key, v, now))
      case None => (if cached.Some? then cached.value.citedByCount else None, cache)
  }

  /**
   * `get_citations`: without a usable DOI nothing is looked up and None is returned; otherwise
   * a fresh cache entry answers without any request, a 404 or a body answers and is cached,
   * and when every attempt fails the stale cached count, if any, is returned.
   */
  method GetCitations(store: Db.Store, doi: Option<string>, ageDays: string -> Option<real>,
                      responses: seq<Response>, now: string) returns (count: Option<int>)
    requires store.Valid()
    modifies store
    ensures store.Valid()
    ensures DoiKey(doi).None? ==> count.None? && store.citationCache == old(store.citationCache)
    ensures DoiKey(doi).Some? ==>
      (count, store.citationCache) == Citations(old(store.citationCache), DoiKey(doi).value, ageDays, responses, now)
    ensures store.items == old(store.items) && store.notes == old(store.notes) && store.runs == old(store.runs)
    ensures store.topics == old(store.topics) && store.nextItemId == old(store.nextItemId)
    ensures store.nextNoteId == old(store.nextNoteId) && store.nextRunId == old(store.nextRunId)
  {
    if doi.None? || doi.value == "" {
      return None;
    }
    var norm := NormalizeDoi(doi.value);
    if norm == "" {
      return None;
    }
    assert DoiKey(doi) == Some(norm);
    count := CachedLookup(store, norm, ageDays, responses, now);
  }

  /** The lookup of a usable key: the cache first, then the attempts. */
  method CachedLookup(store: Db.Store, key: string, ageDays: string -> Option<real>, responses: seq<Response>, now: string)
    returns (count: Option<int>)
    requires store.Valid()
    modifies store
    ensures store.Valid()
    ensures (count, store.citationCache) == Citations(old(store.citationCache), key, ageDays, responses, now)
    ensures store.items == old(store.items) && store.notes == old(store.notes) && store.runs == old(store.runs)
    ensures store.topics == old(store.topics) && store.nextItemId == old(store.nextItemId)
    ensures store.nextNoteId == old(store.nextNoteId) && store.nextRunId == old(store.nextRunId)
  {
    var cached := store.GetCachedCitation(key);
    if cached.Some? && IsFresh(cached.value.fetchedAt, CacheTtlDays, ageDays) {
      return cached.value.citedByCount;
    }
    var stale := if cached.Some? then cached.value.citedByCount else None;
    count := RequestLoop(store, key, stale, responses, now);
  }

  /** The attempts of `get_citations` once the cache has not answered. */
  method RequestLoop(store: Db.Store, key: string, stale: Option<int>, responses: seq<Response>, now: string)
    returns (count: Option<int>)
    requires store.Valid()
    modifies store
    ensures store.Valid()
    ensures DecisionFrom(responses, 0).Some? ==>
      count == DecisionFrom(responses, 0).value
      && store.citationCache == Db.CacheSet(old(store.citationCache), key, count, now)
    ensures DecisionFrom(responses, 0).None? ==> count == stale && store.citationCache == old(store.citationCache)
    ensures store.items == old(store.items) && store.notes == old(store.notes) && store.runs == old(store.runs)
    ensures store.topics == old(store.topics) && store.nextItemId == old(store.nextItemId)
    ensures store.nextNoteId == old(store.nextNoteId) && store.nextRunId == old(store.nextRunId)
  {
    var attempt := 0;
    while attempt < MaxRetries
      invariant 0 <= attempt <= MaxRetries
      invariant DecisionFrom(responses, attempt) == DecisionFrom(responses, 0)
      invariant unchanged(store)
    {
      var r := Attempt(responses, attempt);
      if r.NotFound? {
        store.SetCachedCitation(key, None, now);
        return None;
      }
      if r.Found? {
        var c := NormalizedCount(r.count);
        store.SetCachedCitation(key, c, now);
        return c;
      }
      assert DecisionFrom(responses, attempt) == DecisionFrom(responses, attempt + 1);
      attempt := attempt + 1;
    }
    return stale;
  }

  /** A fresh cache entry answers whatever the network would say, and the cache stays as it was. */
  lemma FreshEntryNeedsNoRequest(cache: map<string, Db.CitationRow>, key: string, ageDays: string -> Option<real>,
                                 r1: seq<Response>, r2: seq<Response>, now: string)
    requires Db.CacheGet(cache, key).Some?
    requires IsFresh(Db.CacheGet(cache, key).value.fetchedAt, CacheTtlDays, ageDays)
    ensures Citations(cache, key, ageDays, r1, now) == Citations(cache, key, ageDays, r2, now)
    ensures Citations(cache, key, ageDays, r1, now) == (Db.CacheGet(cache, key).value.citedByCount, cache)
  {
  }

  /** When the attempts decide nothing the cache is untouched and the stale count, if any, answers. */
  lemma FailedAttemptsFallBack(cache: map<string, Db.CitationRow>, key: string, ageDays: string -> Option<real>,
                               responses: seq<Response>, now: string)
    requires DecisionFrom(responses, 0).None?
    ensures Citations(cache, key, ageDays, responses, now).1 == cache
    ensures Citations(cache, key, ageDays, responses, now).0
      == (if Db.CacheGet(cache, key).Some? then Db.CacheGet(cache, key).value.citedByCount else None)
  {
  }

  /** Every usable key is a normalised DOI, and so is its own lower-case form. */
  lemma DoiKeyLowerCased(doi: Option<string>)
    requires DoiKey(doi).Some?
    ensures DoiKey(doi).value != "" && Lower(DoiKey(doi).value) == DoiKey(doi).value
  {
    NormalizeDoiShape(doi.value);
    LowerOfLowerCased(NormalizeDoi(doi.value));
  }

  /**
   * Once a lookup has been answered (from a fresh entry or by the network), a later lookup of
   * the same key, while its entry is fresh, gives the same count whatever the network says.
   */
  lemma AnsweredLookupIsCached(cache: map<string, Db.CitationRow>, key: string, ageDays: string -> Option<real>,
                               r1: seq<Response>, r2: seq<Response>, now: string)
    requires Db.CacheValid(cache) && Lower(key) == key
    requires var c := Db.CacheGet(cache, key);
      (c.Some? && IsFresh(c.value.fetchedAt, CacheTtlDays, ageDays)) || DecisionFrom(r1, 0).Some?
    requires IsFresh(now, CacheTtlDays, ageDays)
    ensures Db.CacheValid(Citations(cache, key, ageDays, r1, now).1)
    ensures Citations(Citations(cache, key, ageDays, r1, now).1, key, ageDays, r2, now) == Citations(cache, key, ageDays, r1, now)
  {
    var c := Db.CacheGet(cache, key);
    if !(c.Some? && IsFresh(c.value.fetchedAt, CacheTtlDays, ageDays)) {
      var v := DecisionFrom(r1, 0).value;
      Db.CacheSetGet(cache, key, v, now, key);
    }
  }

  /**
   * The URL and `doi:` spellings of one DOI: after looking up the URL form, the `doi:` form is
   * answered from the cache with the same count.
   */
  lemma UrlThenPrefixedForm(cache: map<string, Db.CitationRow>, d: string, ageDays: string -> Option<real>,
                            r1: seq<Response>, r2: seq<Response>, now: string)
    requires Db.CacheValid(cache) && BareDoi(d)
    requires DecisionFrom(r1, 0).Some?
    requires IsFresh(now, CacheTtlDays, ageDays)
    ensures NormalizeDoi("https://doi.org/" + d) == NormalizeDoi("doi:" + d) == Lower(d) != ""
    ensures var first := Citations(cache, Lower(d), ageDays, r1, now);
      Citations(first.1, Lower(d), ageDays, r2, now).0 == first.0
  {
    DoiFormsAgree(d);
    LowerKeepsSpace(d);
    LowerIsLowerCased(d);
    LowerOfLowerCased(Lower(d));
    AnsweredLookupIsCached(cache, Lower(d), ageDays, r1, r2, now);
  }
}
