/**
 * Open-access full text: PMCID normalisation, the full-text cache key, the routing of an
 * article's `<sec>` elements into labelled buckets, the text and the support snippets drawn
 * from those buckets, and the cache-first enrichment of a record. The XML parser's output,
 * the HTTP responses and the full-text cache lookup are inputs.
 */
module FullTextOa {
  import opened Wrappers
  import opened Strings
  import opened TextUtils
  import opened Records

  // ---------------------------------------------------------------- PMCID

  /** `PMC` followed by a digit starts at `i`. */
  predicate PmcAt(s: string, i: nat) {
    i + 3 < |s| && s[i] == 'P' && s[i + 1] == 'M' && s[i + 2] == 'C' && IsDigit(s[i + 3])
  }

  /** The length of the run of digits starting at `j`. */
  function DigitRun(s: string, j: nat): (k: nat)
    requires j <= |s|
    ensures j + k <= |s|
    ensures forall t | j <= t < j + k :: IsDigit(s[t])
    ensures j + k < |s| ==> !IsDigit(s[j + k])
    decreases |s| - j
  {
    if j < |s| && IsDigit(s[j]) then 1 + DigitRun(s, j + 1) else 0
  }

  /** The first position at or after `from` where `PMC` and a digit start. */
  function FirstPmc(s: string, from: nat): (r: Option<nat>)
    requires from <= |s|
    ensures r.Some? ==> from <= r.value && PmcAt(s, r.value)
    ensures forall i | from <= i && (r.None? || i < r.value) :: !PmcAt(s, i)
    decreases |s| - from
  {
    if from == |s| then None
    else if PmcAt(s, from) then Some(from)
    else FirstPmc(s, from + 1)
  }

  /** `_normalize_pmcid`: the first `PMC` + digits of the upper-cased text. */
  function NormalizePmcid(p: Option<string>): Option<string> {
    if !Truthy(p) then None
    else
      var u := Upper(p.value);
      match FirstPmc(u, 0)
      case None => None
      case Some(i) => Some(u[i..i + 3 + DigitRun(u, i + 3)])
  }

  /** `PMC` followed by one or more digits and nothing else. */
  predicate IsPmcid(s: string) {
    |s| >= 4 && s[0] == 'P' && s[1] == 'M' && s[2] == 'C' && forall t | 3 <= t < |s| :: IsDigit(s[t])
  }

  /**
   * A normalised PMCID is `PMC` and digits found in the upper-cased input, at its first
   * such place; None means the input has no such place.
   */
  lemma NormalizePmcidSpec(p: Option<string>)
    ensures NormalizePmcid(p).Some? ==>
      (Truthy(p) && IsPmcid(NormalizePmcid(p).value)
       && exists i :: FirstPmc(Upper(p.value), 0) == Some(i) && OccursAt(Upper(p.value), NormalizePmcid(p).value, i))
    ensures NormalizePmcid(p).None? && Truthy(p) ==> forall i :: !PmcAt(Upper(p.value), i)
  {
    if Truthy(p) {
      var u := Upper(p.value);
      match FirstPmc(u, 0)
      case None =>
      case Some(i) =>
        var k := DigitRun(u, i + 3);
        var r := u[i..i + 3 + k];
        assert k >= 1;
        assert forall t | 3 <= t < |r| :: r[t] == u[i + t];
        assert OccursAt(u, r, i);
    }
  }

  lemma DigitRunToEnd(s: string, j: nat)
    requires j <= |s| && forall t | j <= t < |s| :: IsDigit(s[t])
    ensures DigitRun(s, j) == |s| - j
    decreases |s| - j
  {
    if j < |s| { DigitRunToEnd(s, j + 1); }
  }

  /** A PMCID is its own normal form, so normalising twice changes nothing. */
  lemma NormalizePmcidFixed(s: string)
    requires IsPmcid(s)
    ensures NormalizePmcid(Some(s)) == Some(s)
  {
    var u := Upper(s);
    assert forall t | 3 <= t < |s| :: u[t] == s[t] by {
      forall t | 3 <= t < |s| ensures u[t] == s[t] { assert IsDigit(s[t]); }
    }
    assert u[0] == s[0] && u[1] == s[1] && u[2] == s[2];
    assert u == s;
    assert PmcAt(u, 0);
    assert FirstPmc(u, 0) == Some(0);
    DigitRunToEnd(u, 3);
    assert u[0..3 + DigitRun(u, 3)] == s;
  }

  // ---------------------------------------------------------------- the cache key

  /** `clean_text(x) or None` */
  function CleanedField(x: Option<string>): Option<string> {
    if CleanText(OrEmpty(x)) == "" then None else Some(CleanText(OrEmpty(x)))
  }

  /** `_cache_key`: by PMCID, else by DOI (lower-cased), else by PMID, else none. */
  function CacheKey(item: Item, pmcid: Option<string>): Option<string> {
    if Truthy(pmcid) then Some("pmcid:" + Upper(pmcid.value))
    else if CleanedField(item.doi).Some? then Some("doi:" + Lower(CleanedField(item.doi).value))
    else if CleanedField(item.pmid).Some? then Some("pmid:" + CleanedField(item.pmid).value)
    else None
  }

  /**
   * The key names the first identifier present in the order PMCID, DOI, PMID, and there is a
   * key exactly when one of them is present.
   */
  lemma CacheKeyPriority(item: Item, pmcid: Option<string>)
    ensures Truthy(pmcid) ==> CacheKey(item, pmcid) == Some("pmcid:" + Upper(pmcid.value))
    ensures !Truthy(pmcid) && CleanedField(item.doi).Some? ==>
      CacheKey(item, pmcid) == Some("doi:" + Lower(CleanedField(item.doi).value))
    ensures CacheKey(item, pmcid).None? <==> !Truthy(pmcid) && CleanedField(item.doi).None? && CleanedField(item.pmid).None?
  {
  }

  /** `_resolve_pmcid` after the converter request: the first record whose PMCID normalises. */
  function FirstRecordPmcid(records: seq<Option<string>>): (r: Option<string>)
    ensures r.Some? ==> exists k | 0 <= k < |records| :: NormalizePmcid(records[k]) == r
    decreases |records|
  {
    if records == [] then None
    else if NormalizePmcid(records[0]).Some? then NormalizePmcid(records[0])
    else
      var r := FirstRecordPmcid(records[1..]);
      assert r.Some? ==> exists k | 0 <= k < |records| :: NormalizePmcid(records[k]) == r by {
        if r.Some? {
          var k :| 0 <= k < |records[1..]| && NormalizePmcid(records[1..][k]) == r;
          assert NormalizePmcid(records[k + 1]) == r;
        }
      }
      r
  }

  /**
   * `_resolve_pmcid`: the record's own PMCID when it normalises; otherwise, when a PMID or
   * DOI is known, the converter's answer (`idconv`, None when the request failed).
   */
  function ResolvePmcid(item: Item, idconv: Option<seq<Option<string>>>): Option<string> {
    if NormalizePmcid(item.pmcid).Some? then NormalizePmcid(item.pmcid)
    else if CleanedField(item.pmid).None? && CleanedField(item.doi).None? then None
    else if idconv.None? then None
    else FirstRecordPmcid(idconv.value)
  }

  // ---------------------------------------------------------------- sections

  /** The labelled text of an article: each field is one bucket of `_extract_labeled_sections`. */
  datatype Sections = Sections(
    abstractText: seq<string>, methods: seq<string>, results: seq<string>,
    discussion: seq<string>, conclusion: seq<string>, captions: seq<string>)

  datatype Bucket = Methods | Results | Discussion | Conclusion

  /** A `<sec>` element: its title text and the text of each of its `<p>` elements. */
  datatype Sec = Sec(title: string, paragraphs: seq<string>)

  /**
   * What the parser finds in an article: the abstract's paragraphs, the body's `<sec>`
   * elements and the figure and table captions, each in document order.
   */
  datatype Article = Article(abstractParagraphs: seq<string>, secs: seq<Sec>, captions: seq<string>)

  /** The non-empty `clean_text` of each entry, in order. */
  function Cleaned(raw: seq<string>): seq<string>
    decreases |raw|
  {
    if raw == [] then []
    else
      var last := CleanText(raw[|raw| - 1]);
      Cleaned(raw[..|raw| - 1]) + (if last != "" then [last] else [])
  }

  lemma {:induction false} CleanedNonEmpty(raw: seq<string>)
    ensures forall t | t in Cleaned(raw) :: t != ""
    decreases |raw|
  {
    if raw != [] { CleanedNonEmpty(raw[..|raw| - 1]); }
  }

  /** One more entry adds its cleaned text when that is non-empty. */
  lemma CleanedSnoc(xs: seq<string>, x: string)
    ensures Cleaned(xs + [x]) == Cleaned(xs) + (if CleanText(x) != "" then [CleanText(x)] else [])
  {
    assert (xs + [x])[..|xs|] == xs;
    assert (xs + [x])[|xs|] == x;
  }

  /** The loop's step: the cleaned entries of one more prefix entry. */
  lemma CleanedStep(raw: seq<string>, j: nat)
    requires j < |raw|
    ensures Cleaned(raw[..j + 1]) == Cleaned(raw[..j]) + (if CleanText(raw[j]) != "" then [CleanText(raw[j])] else [])
  {
    assert raw[..j + 1] == raw[..j] + [raw[j]];
    CleanedSnoc(raw[..j], raw[j]);
  }

  lemma {:induction false} CleanedConcat(a: seq<string>, b: seq<string>)
    ensures Cleaned(a + b) == Cleaned(a) + Cleaned(b)
    decreases |b|
  {
    if b == [] {
      assert a + b == a;
    } else {
      var c := b[..|b| - 1];
      var x := b[|b| - 1];
      assert b == c + [x];
      assert a + b == (a + c) + [x];
      CleanedConcat(a, c);
      CleanedSnoc(a + c, x);
      CleanedSnoc(c, x);
    }
  }

  /** Twenty cleaned entries of a prefix are the first twenty of the whole. */
  lemma CleanedPrefixTake(raw: seq<string>, j: nat, caps: seq<string>)
    requires j <= |raw| && caps == Cleaned(raw[..j]) && |caps| == 20
    ensures caps == Take(Cleaned(raw), 20)
  {
    CleanedConcat(raw[..j], raw[j..]);
    assert raw[..j] + raw[j..] == raw;
    assert Cleaned(raw)[..20] == caps;
  }

  const MethodTerms: seq<string> := ["method", "materials", "patients and methods"]
  const ResultTerms: seq<string> := ["result", "efficacy"]
  const DiscussionTerms: seq<string> := ["discussion"]
  const ConclusionTerms: seq<string> := ["conclusion", "concluding"]

  /** Some term occurs in the title or in the joined text. */
  predicate Mentions(title: string, joined: string, terms: seq<string>) {
    exists k | 0 <= k < |terms| :: Contains(title, terms[k]) || Contains(joined, terms[k])
  }

  /** The first bucket, in the order methods, results, discussion, conclusion, that is mentioned. */
  function BucketOf(title: string, joined: string): Option<Bucket> {
    if Mentions(title, joined, MethodTerms) then Some(Methods)
    else if Mentions(title, joined, ResultTerms) then Some(Results)
    else if Mentions(title, joined, DiscussionTerms) then Some(Discussion)
    else if Mentions(title, joined, ConclusionTerms) then Some(Conclusion)
    else None
  }

  /** A bucket is chosen only when its terms are mentioned and no earlier bucket's are. */
  lemma BucketPriority(title: string, joined: string)
    ensures BucketOf(title, joined) == Some(Results) ==>
      Mentions(title, joined, ResultTerms) && !Mentions(title, joined, MethodTerms)
    ensures BucketOf(title, joined) == Some(Discussion) ==>
      Mentions(title, joined, DiscussionTerms) && !Mentions(title, joined, MethodTerms) && !Mentions(title, joined, ResultTerms)
    ensures BucketOf(title, joined) == Some(Conclusion) ==>
      Mentions(title, joined, ConclusionTerms) && !Mentions(title, joined, MethodTerms)
      && !Mentions(title, joined, ResultTerms) && !Mentions(title, joined, DiscussionTerms)
    ensures BucketOf(title, joined).None? ==>
      !Mentions(title, joined, MethodTerms) && !Mentions(title, joined, ResultTerms)
      && !Mentions(title, joined, DiscussionTerms) && !Mentions(title, joined, ConclusionTerms)
  {
  }

  /** The title as compared: whitespace-split, re-joined, cleaned and lower-cased. */
  function SecTitle(title: string): string {
    Lower(CleanText(Join(" ", Words(title))))
  }

  /** The bucket a `<sec>` is filed under: none when it has no non-empty paragraph. */
  function SecBucket(sec: Sec): Option<Bucket> {
    var blocks := Cleaned(sec.paragraphs);
    if blocks == [] then None
    else BucketOf(SecTitle(sec.title), Lower(Join(" ", Take(blocks, 5))))
  }

  /** The first 20 blocks of every `<sec>` filed under `b`, in document order. */
  function Routed(secs: seq<Sec>, b: Bucket): seq<string>
    decreases |secs|
  {
    if secs == [] then []
    else
      var last := secs[|secs| - 1];
      Routed(secs[..|secs| - 1], b) + (if SecBucket(last) == Some(b) then Take(Cleaned(last.paragraphs), 20) else [])
  }

  /** `_extract_labeled_sections` */
  function LabeledSections(a: Article): Sections {
    Sections(
      Take(Cleaned(a.abstractParagraphs), 20),
      Routed(a.secs, Methods), Routed(a.secs, Results), Routed(a.secs, Discussion), Routed(a.secs, Conclusion),
      Take(Cleaned(a.captions), 20))
  }

  /** A bucket holds at most 20 blocks from each `<sec>` filed under it. */
  lemma {:induction false} RoutedBound(secs: seq<Sec>, b: Bucket)
    ensures |Routed(secs, b)| <= 20 * |secs|
    decreases |secs|
  {
    if secs != [] { RoutedBound(secs[..|secs| - 1], b); }
  }

  /** A `<sec>` lands in at most one bucket: its blocks add to no other bucket. */
  lemma RoutedStep(secs: seq<Sec>, sec: Sec, b: Bucket)
    ensures Routed(secs + [sec], b)
      == Routed(secs, b) + (if SecBucket(sec) == Some(b) then Take(Cleaned(sec.paragraphs), 20) else [])
  {
    assert (secs + [sec])[..|secs|] == secs;
  }

  /**
   * `_extract_labeled_sections`: the abstract's first 20 non-empty paragraphs, each `<sec>`'s
   * first 20 non-empty blocks appended to the bucket it is filed under, and the first 20
   * non-empty captions.
   */
  method ExtractLabeledSections(a: Article) returns (s: Sections)
    ensures s == LabeledSections(a)
    ensures |s.abstractText| <= 20 && |s.captions| <= 20
  {
    var abstractText := Take(Cleaned(a.abstractParagraphs), 20);
    var methods, results, discussion, conclusion := RouteSecs(a.secs);
    var captions := CaptionList(a.captions);
    s := Sections(abstractText, methods, results, discussion, conclusion, captions);
  }

  /** The bucket of one `<sec>` and the blocks it contributes, as the loop body computes them. */
  method FileSec(sec: Sec) returns (bucket: Option<Bucket>, blocks: seq<string>)
    ensures bucket == SecBucket(sec) && blocks == Take(Cleaned(sec.paragraphs), 20)
  {
    var title := SecTitle(sec.title);
    var all := Cleaned(sec.paragraphs);
    blocks := Take(all, 20);
    if all == [] {
      return None, blocks;
    }
    var joined := Lower(Join(" ", Take(all, 5)));
    bucket := BucketOf(title, joined);
  }

  /** The `<sec>` loop of `_extract_labeled_sections`. */
  method RouteSecs(secs: seq<Sec>) returns (methods: seq<string>, results: seq<string>,
                                            discussion: seq<string>, conclusion: seq<string>)
    ensures methods == Routed(secs, Methods) && results == Routed(secs, Results)
    ensures discussion == Routed(secs, Discussion) && conclusion == Routed(secs, Conclusion)
  {
    methods, results, discussion, conclusion := [], [], [], [];
    var i := 0;
    while i < |secs|
      invariant 0 <= i <= |secs|
      invariant methods == Routed(secs[..i], Methods) && results == Routed(secs[..i], Results)
      invariant discussion == Routed(secs[..i], Discussion) && conclusion == Routed(secs[..i], Conclusion)
    {
      var sec := secs[i];
      assert secs[..i + 1] == secs[..i] + [sec];
      RoutedStep(secs[..i], sec, Methods);
      RoutedStep(secs[..i], sec, Results);
      RoutedStep(secs[..i], sec, Discussion);
      RoutedStep(secs[..i], sec, Conclusion);
      var bucket, blocks := FileSec(sec);
      if bucket.Some? {
        if bucket == Some(Methods) {
          methods := methods + blocks;
        } else if bucket == Some(Results) {
          results := results + blocks;
        } else if bucket == Some(Discussion) {
          discussion := discussion + blocks;
        } else if bucket == Some(Conclusion) {
          conclusion := conclusion + blocks;
        }
      }
      i := i + 1;
    }
    assert secs[..|secs|] == secs;
  }

  /** One caption of the loop: its `clean_text` is appended when non-empty. */
  method AppendCaption(raw: seq<string>, j: nat, caps: seq<string>) returns (next: seq<string>)
    requires j < |raw| && caps == Cleaned(raw[..j])
    ensures next == Cleaned(raw[..j + 1])
    ensures next == caps || next == caps + [CleanText(raw[j])]
  {
    var t := CleanText(raw[j]);
    CleanedStep(raw, j);
    next := caps;
    if t != "" {
      next := next + [t];
    }
  }

  /**
   * The caption loop of `_extract_labeled_sections`: non-empty captions until there are 20.
   * The loop stops once the twentieth is appended; a caption that cleans to nothing leaves
   * the list, and so the count, as it was.
   */
  method CaptionList(raw: seq<string>) returns (caps: seq<string>)
    ensures caps == Take(Cleaned(raw), 20)
  {
    caps := [];
    var j := 0;
    while j < |raw|
      invariant 0 <= j <= |raw|
      invariant caps == Cleaned(raw[..j]) && |caps| < 20
    {
      caps := AppendCaption(raw, j, caps);
      if |caps| >= 20 {
        CleanedPrefixTake(raw, j + 1, caps);
        return;
      }
      j := j + 1;
    }
    assert raw[..j] == raw;
  }

  // ---------------------------------------------------------------- text and snippets

  /** The buckets in the order `_sections_to_text` reads them. */
  function TextField(s: Sections, k: nat): seq<string>
    requires k < 6
  {
    if k == 0 then s.abstractText else if k == 1 then s.methods else if k == 2 then s.results
    else if k == 3 then s.discussion else if k == 4 then s.conclusion else s.captions
  }

  /** The first 15 entries of each of the first `n` buckets, in order. */
  function TextParts(s: Sections, n: nat): seq<string>
    requires n <= 6
  {
    if n == 0 then [] else TextParts(s, n - 1) + Take(TextField(s, n - 1), 15)
  }

  /** The text is drawn from at most 15 entries of each bucket, in the fixed bucket order. */
  lemma TextPartsOrder(s: Sections)
    ensures TextParts(s, 6) == Take(s.abstractText, 15) + Take(s.methods, 15) + Take(s.results, 15)
      + Take(s.discussion, 15) + Take(s.conclusion, 15) + Take(s.captions, 15)
    ensures |TextParts(s, 6)| <= 90
  {
    assert TextParts(s, 1) == Take(s.abstractText, 15);
    assert TextParts(s, 2) == Take(s.abstractText, 15) + Take(s.methods, 15);
    assert TextParts(s, 3) == Take(s.abstractText, 15) + Take(s.methods, 15) + Take(s.results, 15);
    assert TextParts(s, 4) == Take(s.abstractText, 15) + Take(s.methods, 15) + Take(s.results, 15)
      + Take(s.discussion, 15);
    assert TextParts(s, 5) == Take(s.abstractText, 15) + Take(s.methods, 15) + Take(s.results, 15)
      + Take(s.discussion, 15) + Take(s.conclusion, 15);
  }

  /** The full text of the sections. */
  function SectionText(s: Sections): string {
    CleanText(Join(" ", TextParts(s, 6)))
  }

  /** `_sections_to_text` */
  method SectionsToText(s: Sections) returns (text: string)
    ensures text == SectionText(s)
  {
    var parts: seq<string> := [];
    for k := 0 to 6
      invariant parts == TextParts(s, k)
    {
      var vals := TextField(s, k);
      if vals == [] {
        continue;
      }
      parts := parts + Take(vals, 15);
    }
    text := CleanText(Join(" ", parts));
  }

  /** The buckets in the order `_support_snippets` reads them. */
  function SnippetField(s: Sections, k: nat): seq<string>
    requires k < 6
  {
    if k == 0 then s.results else if k == 1 then s.conclusion else if k == 2 then s.discussion
    else if k == 3 then s.methods else if k == 4 then s.abstractText else s.captions
  }

  /** Every entry of the first `n` buckets in snippet order. */
  function SnippetPool(s: Sections, n: nat): seq<string>
    requires n <= 6
  {
    if n == 0 then [] else SnippetPool(s, n - 1) + SnippetField(s, n - 1)
  }

  /** The entries of at least 40 characters, in order. */
  function LongOnes(xs: seq<string>): (r: seq<string>)
    ensures |r| <= |xs|
    decreases |xs|
  {
    if xs == [] then []
    else LongOnes(xs[..|xs| - 1]) + (if |xs[|xs| - 1]| >= 40 then [xs[|xs| - 1]] else [])
  }

  lemma {:induction false} LongOnesSpec(xs: seq<string>)
    ensures forall t | t in LongOnes(xs) :: |t| >= 40 && t in xs
    decreases |xs|
  {
    if xs != [] { LongOnesSpec(xs[..|xs| - 1]); }
  }

  lemma LongOnesSnoc(xs: seq<string>, x: string)
    ensures LongOnes(xs + [x]) == LongOnes(xs) + (if |x| >= 40 then [x] else [])
  {
    assert (xs + [x])[..|xs|] == xs;
    assert (xs + [x])[|xs|] == x;
  }

  lemma {:induction false} LongOnesPrefix(xs: seq<string>, ys: seq<string>)
    requires xs <= ys
    ensures LongOnes(xs) <= LongOnes(ys)
    decreases |ys|
  {
    if |xs| < |ys| {
      LongOnesPrefix(xs, ys[..|ys| - 1]);
    } else {
      assert xs == ys;
    }
  }

  lemma {:induction false} SnippetPoolPrefix(s: Sections, k: nat, n: nat)
    requires k <= n <= 6
    ensures SnippetPool(s, k) <= SnippetPool(s, n)
    decreases n - k
  {
    if k < n { SnippetPoolPrefix(s, k, n - 1); }
  }

  /** How many snippets are kept: the source appends before comparing, so at least one. */
  function SnippetCap(maxItems: int): nat {
    if maxItems < 1 then 1 else maxItems
  }

  /** The snippets of the sections. */
  function Snippets(s: Sections, maxItems: int): seq<string> {
    Take(LongOnes(SnippetPool(s, 6)), SnippetCap(maxItems))
  }

  /**
   * Each snippet has at least 40 characters and comes from the sections; there are at most
   * `maxItems` of them (one when `maxItems` is below 1), and they are the first long entries
   * in the order results, conclusion, discussion, methods, abstract, captions.
   */
  lemma SnippetsSpec(s: Sections, maxItems: int)
    ensures forall t | t in Snippets(s, maxItems) :: |t| >= 40 && t in SnippetPool(s, 6)
    ensures |Snippets(s, maxItems)| <= SnippetCap(maxItems)
    ensures Snippets(s, maxItems) <= LongOnes(SnippetPool(s, 6))
    ensures SnippetPool(s, 6) == s.results + s.conclusion + s.discussion + s.methods + s.abstractText + s.captions
  {
    LongOnesSpec(SnippetPool(s, 6));
    SnippetPoolOrder(s);
  }

  /** The pool lists the buckets in snippet order. */
  lemma SnippetPoolOrder(s: Sections)
    ensures SnippetPool(s, 6) == s.results + s.conclusion + s.discussion + s.methods + s.abstractText + s.captions
  {
    var p1 := SnippetPool(s, 1);
    assert p1 == s.results by {
      assert SnippetPool(s, 0) == [];
      assert p1 == SnippetPool(s, 0) + s.results;
    }
    var p2 := SnippetPool(s, 2);
    assert p2 == p1 + s.conclusion;
    var p3 := SnippetPool(s, 3);
    assert p3 == p2 + s.discussion;
    var p4 := SnippetPool(s, 4);
    assert p4 == p3 + s.methods;
    var p5 := SnippetPool(s, 5);
    assert p5 == p4 + s.abstractText;
    assert SnippetPool(s, 6) == p5 + s.captions;
  }

  /** Once a prefix of the pool yields as many snippets as are kept, they are the snippets. */
  lemma SnippetsFull(s: Sections, maxItems: int, k: nat, j: nat, out: seq<string>)
    requires k < 6 && j < |SnippetField(s, k)|
    requires out == LongOnes(SnippetPool(s, k) + SnippetField(s, k)[..j + 1]) && |out| == SnippetCap(maxItems)
    ensures out == Snippets(s, maxItems)
  {
    var vals := SnippetField(s, k);
    var seen := SnippetPool(s, k) + vals[..j + 1];
    assert seen <= SnippetPool(s, k + 1) by {
      assert SnippetPool(s, k + 1) == SnippetPool(s, k) + vals;
    }
    SnippetPoolPrefix(s, k + 1, 6);
    LongOnesPrefix(seen, SnippetPool(s, 6));
  }

  /** `_support_snippets` */
  method SupportSnippets(s: Sections, maxItems: int) returns (out: seq<string>)
    ensures out == Snippets(s, maxItems)
  {
    out := [];
    for k := 0 to 6
      invariant out == LongOnes(SnippetPool(s, k)) && |out| < SnippetCap(maxItems)
    {
      var vals := SnippetField(s, k);
      assert SnippetPool(s, k) + vals[..0] == SnippetPool(s, k);
      for j := 0 to |vals|
        invariant out == LongOnes(SnippetPool(s, k) + vals[..j]) && |out| < SnippetCap(maxItems)
      {
        var txt := vals[j];
        assert SnippetPool(s, k) + vals[..j + 1] == (SnippetPool(s, k) + vals[..j]) + [txt];
        LongOnesSnoc(SnippetPool(s, k) + vals[..j], txt);
        if |txt| < 40 {
          continue;
        }
        out := out + [txt];
        if |out| >= maxItems {
          SnippetsFull(s, maxItems, k, j, out);
          return;
        }
      }
      assert vals[..|vals|] == vals;
    }
  }

  // ---------------------------------------------------------------- enrichment

  /** A row of the full-text cache. */
  datatype CacheRow = CacheRow(source: Option<string>, sections: Sections, fetchedAt: Option<string>)

  /** The arguments of `set_cached_full_text`. */
  datatype CacheWrite = CacheWrite(
    key: string, source: string, sections: Sections, pmid: Option<string>, doi: Option<string>,
    pmcid: string, xmlText: string)

  /**
   * What the enrichment learns from outside: the converter's records (None when the request
   * failed), the cache row for the key, the PMC open-access answer, the PMC and Europe PMC
   * response texts (None when a request failed), and the parse of the chosen text (None when
   * it does not parse).
   */
  datatype Lookups = Lookups(
    idconv: Option<seq<Option<string>>>, cached: Option<CacheRow>, isOa: bool,
    pmcXml: Option<string>, epmcXml: Option<string>, parsed: Option<Article>)

  /** `_is_cache_fresh`: `ageDays` stands for parsing a timestamp and measuring its age. */
  predicate CacheFresh(fetchedAt: Option<string>, ttlDays: int, ageDays: string -> Option<real>) {
    Truthy(fetchedAt) && ageDays(fetchedAt.value).Some? && ageDays(fetchedAt.value).value <= ttlDays as real
  }

  /** A response text is used only when it holds an `<article` element. */
  function ArticleXml(text: Option<string>): Option<string> {
    if text.Some? && Contains(Lower(text.value), "<article") then text else None
  }

  /** The record with the cached or fetched sections' text and snippets. */
  function WithFullText(item: Item, source: Option<string>, s: Sections): Item {
    item.(fullTextSource := source, fullTextText := Some(SectionText(s)), supportSnippets := Snippets(s, 5))
  }

  /** The XML text and its source name: PMC when it is open access and answers, else Europe PMC. */
  function ChosenXml(lk: Lookups): (Option<string>, string) {
    var pmc := if lk.isOa then ArticleXml(lk.pmcXml) else None;
    if pmc.Some? then (pmc, "PMC") else (ArticleXml(lk.epmcXml), "Europe PMC")
  }

  /**
   * `enrich_item_from_oa_full_text` as a function: the enriched record and the cache write,
   * if any.
   */
  function Enriched(item: Item, lk: Lookups, ttlDays: int, ageDays: string -> Option<real>): (Item, Option<CacheWrite>) {
    var pmcid := ResolvePmcid(item, lk.idconv);
    var key := CacheKey(item, pmcid);
    if key.None? then (item, None)
    else if lk.cached.Some? && CacheFresh(lk.cached.value.fetchedAt, ttlDays, ageDays) then
      (WithFullText(item, lk.cached.value.source, lk.cached.value.sections), None)
    else if pmcid.None? then (item, None)
    else
      var (xml, source) := ChosenXml(lk);
      if xml.None? || lk.parsed.None? then (item, None)
      else
        var s := LabeledSections(lk.parsed.value);
        if SectionText(s) == "" then (item, None)
        else
          (WithFullText(item, Some(source), s),
           Some(CacheWrite(key.value, source, s, CleanedField(item.pmid), CleanedField(item.doi), pmcid.value, xml.value)))
  }

  /**
   * `enrich_item_from_oa_full_text`: the record is returned with its full-text fields set
   * when the cache or a fetch supplies them, together with the cache write a fetch makes.
   */
  method EnrichItemFromOaFullText(item: Item, lk: Lookups, ttlDays: int, ageDays: string -> Option<real>)
    returns (out: Item, write: Option<CacheWrite>)
    ensures (out, write) == Enriched(item, lk, ttlDays, ageDays)
  {
    var pmcid := ResolvePmcid(item, lk.idconv);
    var key := CacheKey(item, pmcid);
    if key.None? {
      return item, None;
    }
    if lk.cached.Some? && CacheFresh(lk.cached.value.fetchedAt, ttlDays, ageDays) {
      var text := SectionsToText(lk.cached.value.sections);
      var snippets := SupportSnippets(lk.cached.value.sections, 5);
      return item.(fullTextSource := lk.cached.value.source, fullTextText := Some(text), supportSnippets := snippets), None;
    }
    if pmcid.None? {
      return item, None;
    }
    var xml: Option<string> := None;
    var source: Option<string> := None;
    if lk.isOa {
      xml := ArticleXml(lk.pmcXml);
      source := if xml.Some? then Some("PMC") else None;
    }
    if xml.None? {
      xml := ArticleXml(lk.epmcXml);
      source := if xml.Some? then Some("Europe PMC") else None;
    }
    if xml.None? || source.None? || lk.parsed.None? {
      return item, None;
    }
    var s := ExtractLabeledSections(lk.parsed.value);
    var text := SectionsToText(s);
    if text == "" {
      return item, None;
    }
    var snippets := SupportSnippets(s, 5);
    out := item.(fullTextSource := source, fullTextText := Some(text), supportSnippets := snippets);
    write := Some(CacheWrite(key.value, source.value, s, CleanedField(item.pmid), CleanedField(item.doi), pmcid.value, xml.value));
  }

  /** Enrichment changes only the full-text source, the full text and the snippets. */
  lemma EnrichedTouchesFullTextOnly(item: Item, lk: Lookups, ttlDays: int, ageDays: string -> Option<real>)
    ensures var out := Enriched(item, lk, ttlDays, ageDays).0;
      out == item.(fullTextSource := out.fullTextSource, fullTextText := out.fullTextText, supportSnippets := out.supportSnippets)
  {
  }

  /** Without a cache key the record is left as it is and nothing is cached. */
  lemma NoKeyNoChange(item: Item, lk: Lookups, ttlDays: int, ageDays: string -> Option<real>)
    requires CacheKey(item, ResolvePmcid(item, lk.idconv)).None?
    ensures Enriched(item, lk, ttlDays, ageDays) == (item, None)
  {
  }

  /** A fresh cache row answers without any fetch: the responses do not matter and nothing is written. */
  lemma FreshRowNeedsNoFetch(item: Item, lk: Lookups, isOa: bool, pmcXml: Option<string>, epmcXml: Option<string>,
                             parsed: Option<Article>, ttlDays: int, ageDays: string -> Option<real>)
    requires CacheKey(item, ResolvePmcid(item, lk.idconv)).Some?
    requires lk.cached.Some? && CacheFresh(lk.cached.value.fetchedAt, ttlDays, ageDays)
    ensures Enriched(item, lk, ttlDays, ageDays)
      == Enriched(item, lk.(isOa := isOa, pmcXml := pmcXml, epmcXml := epmcXml, parsed := parsed), ttlDays, ageDays)
    ensures Enriched(item, lk, ttlDays, ageDays).1.None?
  {
  }

  /**
   * A fetch that enriches the record writes a cache row from which a later record with the
   * same identifiers is enriched alike, without fetching, while the row is fresh.
   */
  lemma FetchedThenCached(item: Item, lk: Lookups, item2: Item, lk2: Lookups, fetchedAt: string,
                          ttlDays: int, ageDays: string -> Option<real>)
    requires Enriched(item, lk, ttlDays, ageDays).1.Some?
    requires item2.pmcid == item.pmcid && item2.pmid == item.pmid && item2.doi == item.doi && lk2.idconv == lk.idconv
    requires var w := Enriched(item, lk, ttlDays, ageDays).1.value;
      lk2.cached == Some(CacheRow(Some(w.source), w.sections, Some(fetchedAt)))
    requires CacheFresh(Some(fetchedAt), ttlDays, ageDays)
    ensures var (first, w) := Enriched(item, lk, ttlDays, ageDays);
      var (second, w2) := Enriched(item2, lk2, ttlDays, ageDays);
      && w2.None?
      && second.fullTextSource == first.fullTextSource
      && second.fullTextText == first.fullTextText
      && second.supportSnippets == first.supportSnippets
  {
  }

  /**
   * An enrichment that writes the cache sets a non-empty full text from PMC or Europe PMC,
   * preferring PMC when the article is open access there and PMC answers with an article.
   */
  lemma FetchedSource(item: Item, lk: Lookups, ttlDays: int, ageDays: string -> Option<real>)
    requires Enriched(item, lk, ttlDays, ageDays).1.Some?
    ensures var (out, w) := Enriched(item, lk, ttlDays, ageDays);
      && out.fullTextSource == Some(w.value.source)
      && (w.value.source == "PMC" <==> lk.isOa && ArticleXml(lk.pmcXml).Some?)
      && (w.value.source == "PMC" || w.value.source == "Europe PMC")
      && out.fullTextText.Some? && out.fullTextText.value != ""
      && out.source == item.source && out.title == item.title
  {
  }
}
