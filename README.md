# OncoPulse ingestion-and-ranking core, modelled in Dafny

OncoPulse gathers oncology research signals for a topic: journal articles (PubMed, Europe PMC,
journal RSS feeds), preprints (bioRxiv, medRxiv), trial registry records (ClinicalTrials.gov) and
regulatory actions (openFDA). It merges them with what it has already stored, removes duplicates
by an identifier-priority fingerprint, scores every record with rule hits that explain the score,
writes a structured summary, and persists the records of each run together with a run ledger
that decides how far back the next incremental run has to look.

This project models that core, one Dafny module per core Python file:

- `Pipeline` (`oncopulse/services/run_pipeline.py`): the fan-out to the connectors under a time
  budget, the isolation of failing connectors, filtering, de-duplication, the finalize loop that
  stores records until the budget runs out, and the run ledger outcome of `run_pipeline` and
  `run_pipeline_query`.
- `PipelineOptions` (same file): mode presets, the canonical sources key, the incremental window
  resolver, the filters and the relevance test of free-text searches.
- `Db` (`oncopulse/db.py`): the store as a class `Db.Store` whose fields are the items table, the
  run history and the citation cache, with insert-or-update by fingerprint, ranked listing,
  scope clearing and the run ledger queries.
- `Dedup` (`oncopulse/ingest/dedup.py`): title normalisation, the fingerprint and the
  order-preserving de-duplication.
- `Scoring` (`oncopulse/scoring.py`): weight resolution and the rule-based score with its
  explanation lines.
- `Summarize`, `ExtractFields`, `Nlp`, `Llm`, `FullTextOa`, `TextUtils`: the structured summary,
  field detection, keyword and concept extraction with query building, the guards around the
  language-model rewrite, the full-text snippet selection, and text cleaning.
- `PubMed`, `EuropePmc`, `ClinicalTrials`, `Preprints`, `Fda`, `RssFeeds`, `OpenAlex`,
  `QueryTerms`, `Retry`, `Json`, `Patterns`: the connectors' request building, paging, record
  building and limits, over answers given as data.
- Helper modules `Strings` (Python `str` semantics: `strip`, `split`, `splitlines`, `replace`,
  ASCII `lower`, `\s+` collapsing, word-boundary search, ordering), `Records` (the `Item`
  record), `Collect` (the generic collecting loops) and `Wrappers` (`Option`).

External effects are parameters: every connector's answer is a finite sequence of pages or
outcomes (running out is a failed request), the clock is a function from the index of a timeout
check to elapsed seconds, the SHA-1 digest and the `log1p` citation bonus are uninterpreted
functions, and the language model's reply is an input string.

## Model

| member | source | states |
|---|---|---|
| TextUtils.EntityAt | oncopulse/text_utils.py:8 | a named reference of the decoded table (`&amp`, `&lt`, `&gt`, `&quot`, `&nbsp` with or without `;`, and `&apos;`) starts with `&` and spans a non-empty prefix of the text |
| TextUtils.UnescapeWithoutAmp | oncopulse/text_utils.py:8 | text without `&` is left unchanged by the entity decoding |
| TextUtils.DecimalRefDecodes | oncopulse/text_utils.py:8 | a decimal reference `&#n;` to any number decodes as HTML does (NUL and surrogates and numbers beyond Unicode to U+FFFD, carriage return kept, 0x80-0x9F through Windows-1252, forbidden code points to nothing, else the character), and the rest is decoded on its own |
| TextUtils.HexRefDecodes | oncopulse/text_utils.py:8 | a hexadecimal reference `&#x…;` or `&#X…;` decodes to what the number its digits spell stands for, and the rest is decoded on its own |
| TextUtils.DecimalRefAt | oncopulse/text_utils.py:8 | a decimal reference `&#n;` is recognised with its whole length, terminating `;` included, and stands for the character HTML assigns to `n` |
| TextUtils.HexRefAt | oncopulse/text_utils.py:8 | a hexadecimal reference `&#x…;` or `&#X…;` is recognised with its whole length, terminating `;` included, and stands for the character its digits spell |
| TextUtils.NamedRefDecodes | oncopulse/text_utils.py:8 | when a name of the table occurs at the start and no earlier name does, that name decodes to its character and is consumed whole |
| TextUtils.NoNameAtHash | oncopulse/text_utils.py:8 | no name of a table whose names hold no `#` in second place matches text starting `&#` |
| TextUtils.NoEntityAtHash | oncopulse/text_utils.py:8 | text starting `&#` matches no named reference, so trying numeric references first decodes as `html.unescape` does |
| TextUtils.StripTagsWithoutLt | oncopulse/text_utils.py:9 | text without `<` is left unchanged by the tag replacement |
| TextUtils.CleanTextShape | oncopulse/text_utils.py:5-11 | `clean_text` gives one trimmed line, every whitespace run a single space, no line break, and keeps every non-space character of the decoded, tag-stripped text |
| TextUtils.CleanTextOfClean | oncopulse/text_utils.py:5-11 | `clean_text` is the identity on text that is already one clean line without entities or tags |
| TextUtils.KeptLines | oncopulse/text_utils.py:21-22 | the kept lines are non-empty, trimmed and single-spaced, and no more than the input lines |
| TextUtils.KeptLine | oncopulse/text_utils.py:21-22 | one line normalises to at most one non-empty, trimmed, single-spaced line |
| TextUtils.JoinTrimmed | oncopulse/text_utils.py:22 | joining non-empty trimmed lines by newlines gives trimmed, non-empty text |
| TextUtils.KeptCanonical | oncopulse/text_utils.py:21-22 | lines that are already clean are all kept unchanged |
| TextUtils.CleanMultilineKeepsLines | oncopulse/text_utils.py:14-22 | `clean_multiline_text` leaves text made of clean lines unchanged, line breaks included (the partner of `TextUtils.CleanMultilineShape`) |
| TextUtils.CleanMultilineShape | oncopulse/text_utils.py:14-22 | for every input, `clean_multiline_text` is trimmed and has no carriage return; when non-empty its lines are exactly the kept lines of the decoded, tag-stripped, newline-normalised text, in order, each non-empty, trimmed and single-spaced |
| TextUtils.CleanTextIsOneLine | oncopulse/text_utils.py:5-11 | the output of `clean_text` is never more than one line |
| Wrappers.PresentSpec | oncopulse/ingest/clinicaltrials.py:68-72 | keeping the truthy entries of a list keeps exactly the non-empty ones and no more entries than the list holds (their order is stated by `Wrappers.PresentInOrder`) |
| Wrappers.PresentInOrder | oncopulse/ingest/clinicaltrials.py:68-84 | keeping the truthy entries of a concatenation keeps those of each part, joined in order, so the kept values keep their relative order |
| Wrappers.PresentOne | oncopulse/ingest/clinicaltrials.py:70-72 | a single entry is kept exactly when it is truthy |
| Json.HexValue | oncopulse/scoring.py:240 | a hexadecimal digit, of either case, reads as a value below 16 |
| Json.Hex4 | oncopulse/scoring.py:240 | the four-digit hexadecimal form of a `\u` escape is four characters long |
| Json.ReadHex4 | oncopulse/scoring.py:240 | four hexadecimal digits read as a code unit below 0x10000 |
| Json.ReadChar | oncopulse/scoring.py:240 | reading one plain or escaped character consumes input |
| Json.ReadString | oncopulse/scoring.py:240 | reading a string literal's body consumes input up to and including the closing quote |
| Json.HexDigitValue | oncopulse/scoring.py:240 | each hexadecimal digit written reads back as its value |
| Json.ReadHex4Of | oncopulse/scoring.py:240 | the four-digit hexadecimal form of a code unit reads back as that code unit |
| Json.ReadEscape | oncopulse/scoring.py:240 | every character's escaped form is non-empty, does not begin with a quote, and reads back as the character |
| Json.ReadShortEscape | oncopulse/scoring.py:240 | the two-character escapes of quote, backslash, newline, return, tab, backspace and form feed read back |
| Json.ReadBmpEscape | oncopulse/scoring.py:240 | a non-printable character below 0x10000 is written as one `\uXXXX` escape that reads back |
| Json.ReadPairEscape | oncopulse/scoring.py:240 | a character above 0xFFFF is written as a surrogate pair of escapes that reads back |
| Json.ReadEscapeAll | oncopulse/scoring.py:240 | an escaped string followed by a closing quote reads back as the string, leaving the rest |
| Json.ReadQuoted | oncopulse/scoring.py:240 | a quoted string literal starts with a quote and reads back as the string |
| Json.ReadItemsOf | oncopulse/scoring.py:240 | a non-empty list of string literals separated by ", " and closed by `]` reads back as the list |
| Json.LoadsDumps | oncopulse/scoring.py:240 | `json.loads(json.dumps(explain)) == explain` for every list of strings: the stored explanation loses nothing |
| Json.EscapePrintable | oncopulse/scoring.py:240 | with `ensure_ascii`, every character written for a string character is printable ASCII |
| Json.HexPrintable | oncopulse/scoring.py:240 | the digits of a `\u` escape are printable ASCII |
| Json.EscapeAllPrintable | oncopulse/scoring.py:240 | an escaped string is printable ASCII |
| Json.ItemsPrintable | oncopulse/scoring.py:240 | the elements of a serialized list are printable ASCII |
| Json.DumpsPrintable | oncopulse/db.py:129 | the serialized explanation stored in `score_explain_json` is printable ASCII whatever the text |
| Patterns.SkipSpaces | oncopulse/scoring.py:43 | `\s*` ends at the first non-whitespace character after the start |
| Patterns.SkipDigits | oncopulse/scoring.py:43 | greedy `\d+` covers only digits and ends before the first non-digit |
| Patterns.CountsFromMembers | oncopulse/scoring.py:43 | a count is found by the enrolment scan exactly when the pattern matches at some position with that value |
| Patterns.FirstNct | oncopulse/ingest/pubmed.py:211 | the first trial id at or after a position: it is one, and none occurs before it |
| Patterns.NumberAt | oncopulse/summarize.py:18 | a match of `\b\d+(?:\.\d+)?%?\b` at a position is non-empty and stays within the text |
| Patterns.NumbersFrom | oncopulse/llm.py:23 | every number `re.findall` returns is non-empty and starts with a digit |
| Patterns.HasNumberIff | oncopulse/summarize.py:17-18 | a number is present exactly when some digit run starts at a word boundary and ends at one |
| Patterns.NumbersFromFinds | oncopulse/llm.py:23 | the scan finds a number whenever one can start at or after its position |
| Patterns.HasNumberNonEmptySet | oncopulse/llm.py:22-23 | when `_has_number` holds, the set of numbers `_extract_numbers` returns is not empty |
| QueryTerms.TermsFromQuery | oncopulse/ingest/europepmc.py:9-20 | the seen-set loop of `_terms_from_query` computes the term list of `QueryTerms.Terms`: the long words in query order, each at its first occurrence, at most twenty (as `QueryTerms.TermsSpec` states) |
| QueryTerms.BlankedShape | oncopulse/ingest/europepmc.py:10 | after the replacements the query holds no parenthesis and no double quote |
| QueryTerms.ReplaceRemoves | oncopulse/ingest/europepmc.py:10 | replacing a character by text without it removes every occurrence |
| QueryTerms.ReplaceChars | oncopulse/ingest/europepmc.py:10 | every character after `str.replace` comes from the input or from the replacement |
| QueryTerms.WordsChars | oncopulse/ingest/europepmc.py:11 | the words of `str.split()` hold only characters of the text |
| QueryTerms.LongWordsShape | oncopulse/ingest/europepmc.py:11 | the kept words are lower-case, at least four characters, free of spaces, parentheses and quotes, and every long word is kept |
| QueryTerms.LowerPlain | oncopulse/ingest/europepmc.py:11 | a word of the blanked query, lower-cased, holds no space, parenthesis or double quote |
| QueryTerms.TermsSpec | oncopulse/ingest/europepmc.py:9-20 | at most twenty distinct terms, each plain, lower-case and at least four characters; every long word of the query is a term unless twenty were already kept; the terms are the long words deleted from the query in their order, each at its first occurrence, and every long word before a dropped one is kept |
| QueryTerms.NoTermsMatchAll | oncopulse/ingest/europepmc.py:23-27 | a query without a word of four or more characters gives no terms, and then every text matches |
| QueryTerms.NoLongWords | oncopulse/ingest/europepmc.py:11 | words all shorter than four characters give no terms |
| Retry.Retried | oncopulse/ingest/fda.py:35-45 | the retry loop returns the answer of the first of the `MAX_RETRIES` attempts that is answered |
| Retry.FirstAnswerSpec | oncopulse/ingest/preprints.py:32-42 | the first attempt's answer is used if any, else the second's, else none; no third attempt is made |
| Collect.Cleaned | oncopulse/ingest/europepmc.py:60-62 | `(x or "").strip() or None` is the stripped value when non-blank and `None` exactly when blank |
| Collect.Extend | oncopulse/ingest/europepmc.py:53-90 | the append-then-check loop appends the records of the matching entries in order until `limit` are held (at least one), and says whether it stopped there |
| Collect.ExtendGroups | oncopulse/ingest/rss_feeds.py:40-75 | the loop over feeds extends the record list feed after feed and stops in the feed where the limit is reached |
| Collect.CollectMatching | oncopulse/ingest/fda.py:62-112 | the loop over one result list returns the first `limit` (at least one) records of the matching entries |
| Collect.FilterConcat | oncopulse/ingest/europepmc.py:53-57 | filtering two lists one after the other is filtering their concatenation |
| Collect.TakeOfPrefix | oncopulse/ingest/europepmc.py:89-90 | once the limit is met within the first entries, the records held are the first of all matching ones |
| Collect.GroupStep | oncopulse/ingest/rss_feeds.py:48-75 | one feed of the loop: the records still to come are that feed's matching ones up to the limit, then those of the later feeds |
| Collect.SelectedSpec | oncopulse/ingest/preprints.py:69-99 | at most `limit` records (one when `limit` is not positive), a prefix of the records of the matching entries in order, each built from a matching entry, and all of them when few enough |
| EuropePmc.SearchResults | oncopulse/ingest/europepmc.py:30-92 | `search` with the request answered by a parameter: nothing for a blank query or a non-positive limit, the failure when the request raises, otherwise the selected records |
| EuropePmc.ResultRecordSpec | oncopulse/ingest/europepmc.py:54-87 | preprint exactly for source `PPR`; the identifiers are stripped, blanks dropped; the link follows DOI, then PMID, then PMCID, and is the home page only when all three are blank; the title is never empty |
| EuropePmc.LinkSpec | oncopulse/ingest/europepmc.py:64-71 | the link is the Europe PMC home page exactly when DOI, PMID and PMCID are all missing |
| EuropePmc.SearchSpec | oncopulse/ingest/europepmc.py:30-51 | nothing for a blank query or a non-positive limit; otherwise the answer to one request for the query with its window and source clause and page size `min(limit, 1000)` |
| EuropePmc.AnswerSpec | oncopulse/ingest/europepmc.py:49-92 | a failed request fails the search; otherwise at most `limit` records, the first of those of the matching results, in the service's order |
| EuropePmc.RelevantSpec | oncopulse/ingest/europepmc.py:23-27 | with no terms every result matches; otherwise exactly those whose lower-cased title and abstract hold a term |
| EuropePmc.EpmcQuerySpec | oncopulse/ingest/europepmc.py:35-39 | the user's query is kept whole in parentheses at the head, and the preprint-only query ends with ` AND SRC:PPR` |
| EuropePmc.FetchAbstractSpec | oncopulse/ingest/europepmc.py:95-120 | no request and `None` without a PMID or DOI; the query joins `EXT_ID:` and `DOI:"…"` by ` OR `; an answer is the non-empty stripped abstract of the first result |
| Fda.SearchApprovals | oncopulse/ingest/fda.py:23-112 | `search` with the service and the date test as parameters: retried windowed request, fallback request when it gave nothing, then window, term and limit filter |
| Fda.PrimarySpec | oncopulse/ingest/fda.py:35-45 | the windowed request's first answer is used, even an empty one; the second attempt only after a failed first; nothing when both fail |
| Fda.FetchedSpec | oncopulse/ingest/fda.py:47-59 | the fallback is asked only when the windowed request gave nothing, and its failure gives nothing |
| Fda.SearchSpec | oncopulse/ingest/fda.py:23-25 | nothing for a non-positive limit; otherwise at most `limit` records, the first of those of the kept applications, in the service's order |
| Fda.KeptSpec | oncopulse/ingest/fda.py:78-88 | an application dated before the window is skipped; one without a parsable date is judged by the terms alone; with terms, one is kept only when its text holds a term |
| Fda.FdaItemSpec | oncopulse/ingest/fda.py:64-108 | every record is an `fda` record titled "FDA update: " and the brand, drug name or "Unknown product"; it links to the FDA drugs page exactly when there is no application number; its update date is the latest submission's |
| Preprints.FetchServerRecords | oncopulse/ingest/preprints.py:23-56 | the cursor loop of `_fetch_server` with its retried page requests returns the gathered records cut to `limit` |
| Preprints.PagesGrow | oncopulse/ingest/preprints.py:29-54 | records once gathered stay at the head of the result |
| Preprints.CursorsSpec | oncopulse/ingest/preprints.py:25-54 | the pages asked for start at cursor 0 and are one page size apart, and every page but the last came back full |
| Preprints.LastPageStops | oncopulse/ingest/preprints.py:45-53 | short of the limit, the gathering stopped at a page nobody answered, an empty page or a short page |
| Preprints.FetchServerSpec | oncopulse/ingest/preprints.py:23-56 | at most `limit` records: the first `limit` of the records of the pages at the cursors asked for, in order, all of them when there are fewer |
| Preprints.PagesAreCursorPages | oncopulse/ingest/preprints.py:23-54 | the records gathered are those already held followed by the records of every page asked for, in cursor order, a page without an answer adding none |
| Preprints.SearchPreprints | oncopulse/ingest/preprints.py:59-99 | `search`: nothing for a non-positive limit, else the records of the matching bioRxiv then medRxiv records up to the limit |
| Preprints.SearchSpec | oncopulse/ingest/preprints.py:59-99 | nothing for a non-positive limit; otherwise at most `limit` records, the first of those built from the matching bioRxiv then medRxiv records |
| Preprints.PreprintItemSpec | oncopulse/ingest/preprints.py:71-94 | a `preprint` record with a non-empty title; it keeps a DOI exactly when the stripped DOI is non-blank, links to it then, and to medRxiv exactly when there is none |
| RssFeeds.Feeds | oncopulse/ingest/rss_feeds.py:40-48 | one list of entries per configured feed |
| RssFeeds.SliceTo | oncopulse/ingest/rss_feeds.py:77 | Python's `items[:limit]`: a prefix, of length `limit` at most, counted from the end for a negative `limit` |
| RssFeeds.SearchFeedsAsWritten | oncopulse/ingest/rss_feeds.py:36-77 | `search` as written: the loop over feeds and items returns the first matching records, at least one whenever any item matches |
| RssFeeds.SearchFeeds | oncopulse/ingest/rss_feeds.py:36-77 | `search` with the non-positive limit answered by nothing before any feed is read |
| RssFeeds.AsWrittenIgnoresLimit | oncopulse/ingest/rss_feeds.py:74-75 | as written, a limit of zero or less still returns one record when any feed holds a match |
| RssFeeds.SearchSpec | oncopulse/ingest/rss_feeds.py:36-77 | the guarded search returns at most `max(limit, 0)` records, the first of those of the matching items feed after feed, and all of them when few enough |
| RssFeeds.EntriesSpec | oncopulse/ingest/rss_feeds.py:40-48 | the entries are exactly the items of the feeds that were read, each with its feed's URL |
| RssFeeds.JournalItemSpec | oncopulse/ingest/rss_feeds.py:49-73 | a `journal_rss` record with a non-empty title, linking to the item's link or else to its feed, venue "RSS Journal" without a source, no date without a `pubDate` |
| RssFeeds.SearchJournals | oncopulse/ingest/rss_feeds.py:40 | over the four configured journal feeds, the guarded search returns at most `max(limit, 0)` records |
| PubMed.MonthCodeOf | oncopulse/ingest/pubmed.py:150-153 | the two-digit form of a month number from 1 to 12 is a month code that reads back as that number |
| PubMed.NormalizeMonthSpec | oncopulse/ingest/pubmed.py:144-155 | a month in digits is kept as its two-digit form when between 1 and 12 and dropped otherwise; a name is looked up by its first three letters, lower-cased; a blank month is dropped; any result is one of the twelve month codes |
| PubMed.DatePartsSpec | oncopulse/ingest/pubmed.py:165-170 | the joined date is the year, then "-month" and "-day" for each part present |
| PubMed.PubDateSpec | oncopulse/ingest/pubmed.py:158-171 | with a year the date is the stripped year followed by the normalised month and the two-digit day when present; without one it is the stripped MedlineDate, or nothing |
| PubMed.FindNct | oncopulse/ingest/pubmed.py:211 | a match found by the scan is a word-bounded `NCT` followed by eight digits at or after the start |
| PubMed.FindNctFirst | oncopulse/ingest/pubmed.py:211 | the scan finds the leftmost match, and finds none only when no position holds one |
| PubMed.NctSpec | oncopulse/ingest/pubmed.py:208-212 | the NCT number is the eleven characters of the leftmost match, and there is none exactly when no position holds one |
| PubMed.RecordOfSpec | oncopulse/ingest/pubmed.py:177-205 | a `pubmed` record links to PubMed exactly when it has a PMID, and its NCT number is one found in the abstract |
| PubMed.SearchIds | oncopulse/ingest/pubmed.py:54-102 | `search` with its pagination loop and its seen-set loop, the esearch answers a parameter: nothing for a blank query or non-positive `retmax`, `None` when a request fails; the ids are the page ids in page order with repeats dropped, as `PubMed.SearchInPageOrder` states |
| PubMed.PagingSpec | oncopulse/ingest/pubmed.py:65-95 | every request asks for between 1 and 200 ids; the first starts at 0 and each later one where the previous page ended; every request but the last got a non-empty page |
| PubMed.PagingIds | oncopulse/ingest/pubmed.py:65-95 | the ids gathered are the pages' ids in request order |
| PubMed.SearchSpec | oncopulse/ingest/pubmed.py:54-102 | the ids returned are at most `retmax`, distinct, and each came from some page (their order is stated by `PubMed.SearchInPageOrder`) |
| PubMed.SearchInPageOrder | oncopulse/ingest/pubmed.py:54-102 | for a non-blank query and positive `retmax`, the ids returned are the page ids in page order with repeats dropped at their first occurrence, the first `retmax` of them |
| PubMed.TwoPages | tests/test_connectors.py:20-33 | five ids over pages of three and two: requests at offsets 0 and 3, all five ids returned in order |
| PubMed.DistinctOfDistinct | oncopulse/ingest/pubmed.py:96-102 | a list without repeats is unchanged by the seen-set loop |
| Strings.DistinctFromSpec | oncopulse/ingest/pubmed.py:96-102 | the seen-set loop keeps input elements not already seen, each once, and every one of them |
| Strings.DistinctFromSubseq | oncopulse/ingest/pubmed.py:96-102 | the seen-set loop keeps a subsequence of its input: kept elements keep their relative order |
| Strings.DistinctFromOrder | oncopulse/ingest/pubmed.py:96-102 | an element kept earlier occurs in the input before every occurrence of an element kept later |
| Strings.FirstDistinct | oncopulse/ingest/pubmed.py:96-102 | the first `n` of the de-duplicated list are distinct, a subsequence of the input in first-seen order, include every element seen before any dropped one, and include every element when fewer than `n` are kept |
| PubMed.ArticleRecords | oncopulse/ingest/pubmed.py:174-205 | one record per parsed article, in order |
| PubMed.FetchRecords | oncopulse/ingest/pubmed.py:215-233 | `fetch` requests the ids in batches of 200 and concatenates the records of each batch, `None` when a request fails |
| PubMed.BatchesSpec | oncopulse/ingest/pubmed.py:220-221 | the batches are non-empty, hold at most 200 ids each, and put together give the ids back in order |
| ClinicalTrials.SafeGet | oncopulse/ingest/clinicaltrials.py:9-15 | the loop of `_safe_get` walks the path through nested dictionaries |
| ClinicalTrials.SafeGetSpec | oncopulse/ingest/clinicaltrials.py:9-15 | the value at the path when every step is a dictionary holding the next key and the value is not `None`; the default in every other case |
| ClinicalTrials.NullPath | oncopulse/ingest/clinicaltrials.py:12-15 | walking on from `None` always ends in the default |
| ClinicalTrials.PresentValues | oncopulse/ingest/clinicaltrials.py:68-84 | the append loops over intervention names, outcome measures and description fields keep exactly the truthy values, in order |
| ClinicalTrials.StudyToRecord | oncopulse/ingest/clinicaltrials.py:55-110 | the body of the study loop builds the record of one study |
| ClinicalTrials.StudyRecordSpec | oncopulse/ingest/clinicaltrials.py:64-110 | a `clinicaltrials` record: brief title, else official title, else "Untitled study"; study link exactly when there is an NCT number; a single phase, intervention or endpoint is the field itself; the update date is the one under `lastUpdatePostDateStruct` |
| Collect.Built | oncopulse/ingest/clinicaltrials.py:54-110 | one record per study, in order |
| ClinicalTrials.AppendStudies | oncopulse/ingest/clinicaltrials.py:54-112 | the study loop appends the records of the page's first studies until `limit` records are held |
| ClinicalTrials.SearchStudies | oncopulse/ingest/clinicaltrials.py:34-121 | `search` with its token loop, the service's answers given in order: nothing for a blank query or non-positive limit, `None` when a request fails |
| Collect.BuiltConcat | oncopulse/ingest/clinicaltrials.py:54-110 | the records of two runs of studies are the records of their concatenation |
| Collect.BuiltPrefix | oncopulse/ingest/clinicaltrials.py:54-112 | the records of a prefix of the studies are a prefix of their records |
| ClinicalTrials.ChainedCons | oncopulse/ingest/clinicaltrials.py:117-119 | a request sending the previous page's next token extends a chain of token-linked requests |
| ClinicalTrials.PagesRequests | oncopulse/ingest/clinicaltrials.py:38-51 | every request sends the query and page size `min(100, limit)`; the first sends no token, each later one the previous page's non-empty `nextPageToken` |
| ClinicalTrials.PagesItems | oncopulse/ingest/clinicaltrials.py:42-121 | the records are at most `limit` and a prefix of those of the answered pages; a crawl that did not fail returns exactly the first `limit` records built from the studies of every page it requested, in order, all of them when there are fewer; a crawl that neither failed nor reached the limit stopped at a page without a next token |
| ClinicalTrials.PagesBounds | oncopulse/ingest/clinicaltrials.py:42-121 | the records are at most `limit` and a prefix of those of the answered pages; a crawl that neither failed nor reached the limit stopped at a page without a next token |
| ClinicalTrials.PagesValue | oncopulse/ingest/clinicaltrials.py:42-121 | a crawl that did not fail returns the first `limit` records built from the studies of every page it requested, in order |
| ClinicalTrials.TakeBuilt | oncopulse/ingest/clinicaltrials.py:54-112 | cutting the records held plus a page's records to `limit` is keeping the held ones and the first records of the page that still fit |
| ClinicalTrials.SearchSpec | oncopulse/ingest/clinicaltrials.py:34-121 | nothing for a blank query or non-positive limit; otherwise at most `limit` records taken in order from the answered pages, and a search that did not fail returns exactly the first `limit` records built from the studies of the pages it requested |
| ClinicalTrials.TwoPages | tests/test_connectors.py:36-92 | a limit of 2 over a first page of one study with a next token and a second page of one study gives both records from two requests of page size 2, the second sending the token |
| OpenAlex.NormalizeDoiShape | oncopulse/ingest/openalex.py:23-27 | a normalised DOI is trimmed and holds no upper-case letter |
| OpenAlex.BareFormNormal | oncopulse/ingest/openalex.py:23-27 | a bare DOI normalises to its lower-case spelling |
| OpenAlex.UrlFormNormal | oncopulse/ingest/openalex.py:23-27 | the `https://doi.org/` form of a DOI normalises to the DOI's lower-case spelling |
| OpenAlex.PrefixedFormNormal | oncopulse/ingest/openalex.py:23-27 | the `doi:` form of a DOI normalises to the DOI's lower-case spelling |
| OpenAlex.DoiFormsAgree | oncopulse/ingest/openalex.py:23-27 | the URL, `doi:` and bare forms of one DOI share one cache key |
| OpenAlex.NormalizedCountOfString | oncopulse/ingest/openalex.py:54-55 | a count sent as its decimal string reads back as that count |
| OpenAlex.GetCitations | oncopulse/ingest/openalex.py:30-63 | `get_citations`: no DOI, or one that normalises to nothing, returns None and leaves the cache alone; otherwise the count and the new cache are those of the cached lookup; no other table changes |
| OpenAlex.CachedLookup | oncopulse/ingest/openalex.py:37-63 | a fresh cache entry answers; otherwise the attempts decide, and the stale entry answers when they all fail |
| OpenAlex.RequestLoop | oncopulse/ingest/openalex.py:44-63 | the first 404 or body within `MAX_RETRIES` attempts answers and is cached (None for a 404); when none decides, the stale count answers and the cache is unchanged |
| OpenAlex.FreshEntryNeedsNoRequest | oncopulse/ingest/openalex.py:37-39 | a fresh entry answers whatever the network would have said, and the cache stays the same |
| OpenAlex.FailedAttemptsFallBack | oncopulse/ingest/openalex.py:61-63 | when no attempt decides, the cache is untouched and the cached count, or None, answers |
| OpenAlex.DoiKeyLowerCased | oncopulse/ingest/openalex.py:34-36 | every usable key is non-empty and is its own lower-case form |
| OpenAlex.AnsweredLookupIsCached | oncopulse/ingest/openalex.py:37-57 | once a lookup has been answered, a second lookup of the same key while the entry is fresh returns the same count, whatever the network says |
| OpenAlex.UrlThenPrefixedForm | tests/test_connectors.py:95-123 | after the URL form of a DOI has been looked up, its `doi:` form is answered from the cache with the same count |
| Db.IndexOf | oncopulse/db.py:176 | the first position holding the value, and None exactly when the value is absent |
| Db.UpsertSpec | oncopulse/db.py:111-178 | after an upsert the fingerprint holds exactly the new payload, keeping the id and `created_at` of an earlier row; every other fingerprint reads as before; the table gains a row only for a new fingerprint and keeps one row per fingerprint |
| Db.UpsertStoresScore | oncopulse/db.py:113-135 | the stored row carries the fingerprint, `last_seen_at` and the integer score, and its stored explanation reads back as the record's explanation list |
| Db.UpsertTwice | oncopulse/db.py:136-178 | two upserts of one fingerprint leave one row, with the first upsert's id and creation time and every other column from the second |
| Db.ClearScopeSpec | oncopulse/db.py:191-198 | clearing a scope removes exactly its items, keeping the other rows in order, and exactly the notes that point at a removed item |
| Db.ClearScopeValid | oncopulse/db.py:191-198 | the table stays valid (ids unique and below the counter, fingerprints unique) after clearing a scope |
| Db.SortRankedSpec | oncopulse/db.py:222-226 | the `ORDER BY` sort puts the rows best first and neither adds nor drops one |
| Db.PrefixTop | oncopulse/db.py:226-228 | a `LIMIT` prefix of a best-first list keeps at most `limit` rows, and a row left out ranks no higher than any row kept |
| Db.RankedItemsSpec | oncopulse/db.py:210-229 | the ranked rows belong to the scope (without `clinicaltrials` rows when trials are excluded), each once, best first by citations (mode "cited") or score, then publication date, at most `limit` of them; a scope row is left out only when the limit is reached, and then it ranks no higher than any row returned |
| Db.NoteUpsertSpec | oncopulse/db.py:232-245 | after `upsert_note` the item's note carries the new flag, text and update time, keeping an earlier note's id and creation time; other items' notes read as before |
| Db.CacheSetGet | oncopulse/db.py:253-264 | after a set, every spelling of the DOI that lower-cases the same reads the new count and fetch time, other DOIs read as before, and the keys stay lower-cased |
| Db.LatestSuccessSpec | oncopulse/db.py:298-319 | the last success is a `success` row of the scope (and of the mode and sources key when given) whose `COALESCE(finished_at, started_at)` no other such row exceeds; None exactly when no row qualifies |
| Db.FinishSuccessSpec | oncopulse/db.py:322-335 | finishing a run as a success changes only that row's five columns and makes the ledger report a last success for its scope, mode and sources key |
| Db.Store.constructor | oncopulse/db.py:94-108 | a fresh database after `init_db` holds no rows |
| Db.Store.UpsertItem | oncopulse/db.py:111-178 | `upsert_item`: a record without a fingerprint changes nothing (the `NOT NULL` constraint fails); otherwise the items become the upserted table, the counter grows only for a new fingerprint, the returned id is the row's, and no other table changes |
| Db.Store.ClearScopeItems | oncopulse/db.py:191-198 | `clear_scope_items`: the scope's items and the notes pointing at them go; nothing else changes |
| Db.Store.ClearAllLocalCache | oncopulse/db.py:201-207 | `clear_all_local_cache`: every table is emptied, and the id counters are kept |
| Db.Store.GetRankedItems | oncopulse/db.py:210-229 | `get_ranked_items`: the same promises as the ranked-rows lemma, read from the store |
| Db.Store.UpsertNote | oncopulse/db.py:232-245 | `upsert_note`: the notes become the upserted list, and the note counter grows only for a new note |
| Db.Store.GetNote | oncopulse/db.py:248-250 | `get_note`: a note of that item, or None exactly when the item has none |
| Db.Store.GetCachedCitation | oncopulse/db.py:253-255 | `get_cached_citation`: the row stored under the lower-cased DOI, or None when there is none |
| Db.Store.SetCachedCitation | oncopulse/db.py:258-264 | `set_cached_citation`: the cache becomes the updated map, and no other table changes |
| Db.Store.CreateRun | oncopulse/db.py:267-295 | `create_run`: a `running` row with a fresh id, above every earlier id, is appended and its id returned; nothing else changes |
| Db.Store.GetLastSuccessfulRun | oncopulse/db.py:298-319 | `get_last_successful_run`: the latest qualifying row, or None exactly when none qualifies |
| Db.Store.FinishRun | oncopulse/db.py:322-335 | `finish_run`: only the run with that id changes, and only in its five columns |
| Dedup.NormalizeTitle | oncopulse/ingest/dedup.py:7-11 | the normal title holds only lower-case letters, digits and single spaces |
| Dedup.CollapseKeepsAlphabet | oncopulse/ingest/dedup.py:9-10 | collapsing whitespace in text of letters, digits and whitespace leaves letters, digits and single spaces |
| Dedup.FirstYear | oncopulse/ingest/dedup.py:17 | the position of the first year (19 or 20 then two digits) at or after a position, with no match before it |
| Dedup.YearBucket | oncopulse/ingest/dedup.py:14-18 | "unknown" exactly for a missing or empty date or one holding no year of the 1900s or 2000s; otherwise four characters of the date that form such a year |
| Dedup.FingerprintPriority | oncopulse/ingest/dedup.py:21-31 | the fingerprint is keyed by the first non-blank identifier among DOI, PMID and NCT id (stripped and lower-cased); otherwise it is `titleyear:` and the first 16 characters of the digest of `title:`, the normal title, a vertical bar, `year:` and the year bucket of the publication date, or of the update date when that is missing |
| Dedup.SameDoiSameFingerprint | oncopulse/ingest/dedup.py:22-25 | two records whose DOIs agree up to case and surrounding whitespace share a fingerprint |
| Dedup.DigestInputInjective | oncopulse/ingest/dedup.py:29 | the digest input determines the normal title and the year bucket, since a normal title holds no bar character |
| Dedup.FingerprintNonEmpty | oncopulse/ingest/dedup.py:21-31 | a fingerprint is never empty |
| Dedup.Fp | oncopulse/ingest/dedup.py:39 | the fingerprint a record is judged by, its own or a computed one, is never empty |
| Dedup.Deduplicate | oncopulse/ingest/dedup.py:34-46 | the loop of `deduplicate` keeps the records that the recursive definition keeps, each stamped with its fingerprint (whose meaning the `Dedup.Dedup…` lemmas state) |
| Dedup.DedupDistinct | oncopulse/ingest/dedup.py:34-46 | the kept records carry pairwise different fingerprints, none of them already seen |
| Dedup.DedupCovers | oncopulse/ingest/dedup.py:34-46 | every fingerprint of the input not already seen is kept, and no other |
| Dedup.DedupNoLonger | oncopulse/ingest/dedup.py:34-46 | de-duplication never lengthens the list |
| Dedup.DedupIdempotent | oncopulse/ingest/dedup.py:34-46 | de-duplicating the output again changes nothing |
| Dedup.DedupFreshIsIdentity | oncopulse/ingest/dedup.py:38-44 | stamped records with pairwise different fingerprints, none already seen, all pass unchanged |
| Dedup.DedupSubseq | oncopulse/ingest/dedup.py:34-46 | the kept records are a subsequence of the stamped input: they keep the input order |
| Dedup.DedupKeepsFirst | oncopulse/ingest/dedup.py:38-44 | each kept record is the first input record with its fingerprint, stamped |
| Dedup.DedupFirstSeenOrder | oncopulse/ingest/dedup.py:38-44 | kept records appear in the order in which their fingerprints first occur in the input |
| ExtractFields.ClassifyFromFirst | oncopulse/extract_fields.py:6-31 | in a chain of cue tests, the first group whose cue occurs decides, over every later group |
| ExtractFields.ClassifyFromNone | oncopulse/extract_fields.py:6-31 | with no cue of any group present, the answer is "Unknown" |
| ExtractFields.PhaseByPriority | oncopulse/extract_fields.py:6-16 | `detect_phase` tests phase III, then II, then I, then IV, each by its roman and arabic spelling |
| ExtractFields.RomanPhaseMentionsPhaseOne | oncopulse/extract_fields.py:8-14 | text holding "phase iii", "phase ii" or "phase iv" also holds "phase i" |
| ExtractFields.PhaseFourReadsAsPhaseOne | oncopulse/extract_fields.py:12-15 | a "phase iv" text naming neither phase III nor phase II is classified as Phase I, since the phase I test comes first |
| ExtractFields.PhaseFourOnlyArabic | oncopulse/extract_fields.py:8-16 | "Phase IV" is returned exactly when "phase 4" occurs and no cue of phases III, II or I does |
| ExtractFields.StudyTypeByPriority | oncopulse/extract_fields.py:19-31 | `detect_study_type` tests meta-analysis, then randomized, retrospective, prospective and single-arm, in that order |
| ExtractFields.FoundAmongSpec | oncopulse/extract_fields.py:46-48 | the found labels among the first labels of the mapping, each once |
| ExtractFields.LabelFoundIff | oncopulse/extract_fields.py:37-45 | each endpoint label is found exactly when one of its own cues occurs |
| ExtractFields.EndpointLabelsSpec | oncopulse/extract_fields.py:34-48 | the reported labels are exactly those with a cue in the text, each once |
| ExtractFields.EndpointStep | oncopulse/extract_fields.py:46-48 | a loop step whose cue is the only cue of the next label extends the list by that label when its cue occurs |
| ExtractFields.EndpointsAfterResponse | oncopulse/extract_fields.py:38-48 | the first four steps, with the two "ORR" cues, report OS, PFS and ORR as found, each once |
| ExtractFields.EndpointsAfterAll | oncopulse/extract_fields.py:46-48 | the seven loop steps build the reported label list |
| ExtractFields.CollectEndpoints | oncopulse/extract_fields.py:36-48 | the loop appends each found cue's label once, in the mapping's order |
| ExtractFields.DetectEndpoints | oncopulse/extract_fields.py:34-49 | `detect_endpoints`: the found labels joined by ", ", or "Unknown" when there are none |
| ExtractFields.MaxOf | oncopulse/extract_fields.py:58 | the maximum is an element of the list and no element exceeds it |
| ExtractFields.SampleSizeSpec | oncopulse/extract_fields.py:52-59 | "Unknown" exactly when the enrolment pattern matches nowhere; otherwise "N~" and a matched count that no other match exceeds |
| Nlp.KeptChars | oncopulse/nlp.py:56-57 | `_normalize_token` keeps only characters of the class `[a-z0-9-+]`, in order |
| Nlp.RunLength | oncopulse/nlp.py:61 | the run of token characters that starts a text ends at its end or at a non-token character |
| Nlp.TokenRunsShape | oncopulse/nlp.py:61 | every run `findall` returns is a piece of the text, three or more token characters long |
| Nlp.ExtractKeywords | oncopulse/nlp.py:60-74 | the loop of `extract_keywords` returns the keywords `Nlp.Keywords` gives: the first distinct candidates in query order, as `Nlp.KeywordsSpec` states |
| Nlp.CandidatesStep | oncopulse/nlp.py:64-67 | a loop step turns a run into its normal token and keeps it only when it is non-empty, no stopword and not all digits |
| Nlp.CandidatesOfRuns | oncopulse/nlp.py:61-67 | the runs of a lower-cased text are already normal tokens, so each candidate is an accepted run |
| Nlp.KeywordsSpec | oncopulse/nlp.py:60-74 | the keywords are distinct, at most `max_terms` of them (one when it is below one); each is a piece of the lowered query, three or more characters of `[a-z0-9-+]`, no stopword and not all digits; they are the candidates in query order, each at its first occurrence, the first `max_terms` of them |
| Nlp.StrippedTerms | oncopulse/nlp.py:82 | the stripped terms that are not blank |
| Nlp.FiredGroups | oncopulse/nlp.py:80-83 | the non-empty normal term lists of the patterns that fired, in table order |
| Nlp.ConceptGroups | oncopulse/nlp.py:77-86 | the loop of `_concept_groups` returns the fired groups in firing order with later repeats dropped, as `Nlp.ConceptGroupsSpec` states |
| Nlp.FiredStep | oncopulse/nlp.py:80-85 | one loop step adds the normal terms of the pattern when it fired and they are not empty |
| Nlp.NormTermsOfClean | oncopulse/nlp.py:82 | stripped, non-blank, repeat-free terms are their own normal form |
| Nlp.ConceptGroupsSpec | oncopulse/nlp.py:77-86 | the concept groups are distinct and non-empty, each the normal terms of a fired pattern, every fired pattern with terms is represented, and they keep the order in which the patterns fired, a repeated group where it first fired |
| Nlp.FiredMembers | oncopulse/nlp.py:80-85 | every fired pattern with terms contributes its group |
| Nlp.PubmedGroupIsDisjunction | oncopulse/nlp.py:89-92 | the one-term shortcut of `_pubmed_group` agrees with the general case: every group is its terms OR-ed in parentheses |
| Nlp.PubmedGroups | oncopulse/nlp.py:109 | one PubMed group per merged group, in order |
| Nlp.KeywordGroupsOf | oncopulse/nlp.py:102 | one single-term group per keyword |
| Nlp.FirstTerms | oncopulse/nlp.py:112-114 | the first term of each group, in order |
| Nlp.MergedNonEmpty | oncopulse/nlp.py:100-106 | the merged groups are never empty and hold no empty group, the raw query standing in when there are neither concepts nor keywords |
| Nlp.CollectFirstTerms | oncopulse/nlp.py:112-114 | the loop collects the first term of each group |
| Nlp.FirstTermsSnoc | oncopulse/nlp.py:113-114 | one loop step appends the next group's first term |
| Nlp.BuildSearchQueries | oncopulse/nlp.py:95-122 | the body of `build_search_queries` computes the queries the functional definition gives |
| Nlp.BlankQuery | oncopulse/nlp.py:96-98 | a blank query gives empty queries and no keywords or concepts |
| Nlp.SearchQueriesSpec | oncopulse/nlp.py:95-122 | the paper query AND-s at most eight groups, each its terms OR-ed in parentheses: the concept groups, then one group per keyword among the first six, or the raw query alone; the keywords are the first ten of the query; the trial query is never empty: it is the distinct first terms of those groups, space-joined, or the stripped query when they join to nothing |
| Nlp.MergedLayout | oncopulse/nlp.py:102-104 | the merged groups are the concepts followed by one single-term group per keyword among the first six |
| FullTextOa.DigitRun | oncopulse/ingest/fulltext_oa.py:24 | the run of digits that `\d+` takes from a position ends at the text's end or at a non-digit |
| FullTextOa.FirstPmc | oncopulse/ingest/fulltext_oa.py:24 | the first position where `PMC` and a digit start, with none before it |
| FullTextOa.NormalizePmcidSpec | oncopulse/ingest/fulltext_oa.py:21-25 | a normalised PMCID is `PMC` and digits found in the upper-cased input at the first such place; None only for a missing or empty input or one with no such place |
| FullTextOa.NormalizePmcidFixed | oncopulse/ingest/fulltext_oa.py:21-25 | a PMCID is its own normal form, so normalising twice changes nothing |
| FullTextOa.CacheKeyPriority | oncopulse/ingest/fulltext_oa.py:28-37 | the cache key names the first identifier present in the order PMCID (upper-cased), DOI (lower-cased), PMID; there is no key exactly when none is present |
| FullTextOa.FirstRecordPmcid | oncopulse/ingest/fulltext_oa.py:72-79 | a PMCID found by the converter is the normal form of one of its records' PMCIDs |
| FullTextOa.CleanedSnoc | oncopulse/ingest/fulltext_oa.py:145-146 | one more block adds its cleaned text only when that is non-empty |
| FullTextOa.CleanedPrefixTake | oncopulse/ingest/fulltext_oa.py:121-130 | twenty non-empty entries of a prefix are the first twenty of the whole |
| FullTextOa.BucketPriority | oncopulse/ingest/fulltext_oa.py:149-158 | a bucket is chosen only when its terms occur in the title or the first five blocks and no earlier bucket's terms do |
| FullTextOa.RoutedBound | oncopulse/ingest/fulltext_oa.py:159-160 | a bucket holds at most 20 blocks from each `<sec>` |
| FullTextOa.RoutedStep | oncopulse/ingest/fulltext_oa.py:143-160 | a `<sec>` adds its first 20 non-empty blocks to the one bucket it is filed under and to no other |
| FullTextOa.ExtractLabeledSections | oncopulse/ingest/fulltext_oa.py:133-169 | `_extract_labeled_sections`: the sections the functional definition gives, with at most 20 abstract paragraphs and 20 captions |
| FullTextOa.FileSec | oncopulse/ingest/fulltext_oa.py:144-160 | the bucket of one `<sec>` and the blocks it contributes |
| FullTextOa.RouteSecs | oncopulse/ingest/fulltext_oa.py:143-160 | the `<sec>` loop fills each bucket with the blocks of the sections filed under it, in order |
| FullTextOa.CaptionList | oncopulse/ingest/fulltext_oa.py:162-167 | the caption loop keeps the first 20 non-empty captions |
| FullTextOa.AppendCaption | oncopulse/ingest/fulltext_oa.py:163-165 | one caption is appended, cleaned, exactly when its cleaned text is non-empty, and the list stays that of the captions seen so far |
| FullTextOa.CleanedStep | oncopulse/ingest/fulltext_oa.py:163-165 | one more caption extends the cleaned prefix by its cleaned text only when that is non-empty |
| FullTextOa.TextPartsOrder | oncopulse/ingest/fulltext_oa.py:172-180 | the text is drawn from at most 15 entries of each bucket, in the fixed bucket order, at most 90 in all |
| FullTextOa.SectionsToText | oncopulse/ingest/fulltext_oa.py:172-180 | `_sections_to_text`: the cleaned join of those parts |
| FullTextOa.LongOnes | oncopulse/ingest/fulltext_oa.py:187-189 | the entries of at least 40 characters are no more than the entries |
| FullTextOa.LongOnesSpec | oncopulse/ingest/fulltext_oa.py:187-189 | each long entry has at least 40 characters and is one of the entries |
| FullTextOa.SnippetsSpec | oncopulse/ingest/fulltext_oa.py:183-192 | each snippet has at least 40 characters and comes from the sections; at most `max_items` (one when below one); they are the first long entries in the order results, conclusion, discussion, methods, abstract, captions |
| FullTextOa.SnippetPoolOrder | oncopulse/ingest/fulltext_oa.py:185 | the snippet pool lists results, conclusion, discussion, methods, abstract and captions, in that order |
| FullTextOa.SnippetsFull | oncopulse/ingest/fulltext_oa.py:190-191 | returning early once enough snippets are held gives the snippets |
| FullTextOa.SupportSnippets | oncopulse/ingest/fulltext_oa.py:183-192 | `_support_snippets`: the snippets the functional definition gives |
| FullTextOa.EnrichItemFromOaFullText | oncopulse/ingest/fulltext_oa.py:195-249 | `enrich_item_from_oa_full_text`: the enriched record and the cache write the functional definition gives |
| FullTextOa.EnrichedTouchesFullTextOnly | oncopulse/ingest/fulltext_oa.py:204-207 | of the record's modelled fields, enrichment changes only the full-text source, text and snippets |
| FullTextOa.NoKeyNoChange | oncopulse/ingest/fulltext_oa.py:196-199 | without a cache key the record is left as it is and nothing is cached |
| FullTextOa.FreshRowNeedsNoFetch | oncopulse/ingest/fulltext_oa.py:201-208 | a fresh cache row answers whatever the network would say, and nothing is written |
| FullTextOa.FetchedThenCached | oncopulse/ingest/fulltext_oa.py:231-249 | a fetch that enriches the record writes a row from which a later record with the same identifiers is enriched alike, without fetching, while the row is fresh |
| FullTextOa.FetchedSource | oncopulse/ingest/fulltext_oa.py:213-239 | a fetch that writes the cache sets a non-empty full text from PMC or Europe PMC, PMC exactly when the article is open access there and PMC answers with an article |
| Llm.ParsedKeys | oncopulse/llm.py:39-46 | the parsed keys are exactly the cleaned keys of the lines holding a ':' |
| Llm.ParsedLastWins | oncopulse/llm.py:41-45 | a key's value comes from the last line carrying that key, cleaned, after its first ':' |
| Llm.ParseLines | oncopulse/llm.py:39-46 | the loop of `_parse_lines` builds the map the functional definition gives |
| Llm.ParseLine | oncopulse/llm.py:42-45 | one line with a `:` sets its cleaned key to its cleaned value, and any other line leaves the map as it was |
| Llm.FormattedLines | oncopulse/llm.py:54-55 | one line per required key |
| Llm.PlainLabelClean | oncopulse/llm.py:11-19 | a label is one clean line free of ':' |
| Llm.RequiredKeysPlain | oncopulse/llm.py:11-19 | each of the seven required labels is such a label |
| Llm.FormatOrderedLines | oncopulse/llm.py:54-55 | the formatted summary is exactly seven lines, the required labels in order, each followed by ": " and its cleaned value or "Not stated" |
| Llm.FormattedKey | oncopulse/llm.py:44-45 | the label of a formatted line parses back to itself |
| Llm.FormatOrderedValid | oncopulse/llm.py:49-55 | re-parsing a formatted summary finds every required label: the output passes the validity check |
| Llm.CleanedSnippets | oncopulse/llm.py:67 | the cleaned snippets are non-empty and no more than the snippets |
| Llm.Polish | oncopulse/llm.py:58-127 | no key, a blank source or a failed request give None; an accepted reply is a valid structured summary with no prescriptive phrase and no number outside the evidence and the current summary, and the result is its reformatting, itself valid |
| Llm.OneLineOneKey | oncopulse/llm.py:39-46 | one line gives at most one key |
| Llm.OneLineNeverValid | oncopulse/llm.py:49-51 | text of at most one line never holds all seven labels |
| Llm.PolishAsWrittenAlwaysNone | oncopulse/llm.py:112-117 | as written, every reply is rejected: `clean_text` folds its lines into one, so at most one label is parsed |
| Llm.PolishStrictAcceptsCleanReply | oncopulse/llm.py:112-127 | with the reply's lines kept, a reply of clean lines that passes the three guards is accepted, reformatted in label order |
| Summarize.PlainText | oncopulse/summarize.py:17-18 | a plain label holds no number and no line break |
| Summarize.FallbacksPlain | oncopulse/summarize.py:31 | "Not stated" and "Not explicitly stated in provided text" hold no number and no line break |
| Summarize.StudyTypeByPriority | oncopulse/summarize.py:21-31 | the study type is the label of the first cue group present in the lower-cased text: meta-analysis, randomized, phase III, phase II, else "Not stated" |
| Summarize.StudyTypePlain | oncopulse/summarize.py:21-31 | every study type is a one-line label without a number |
| Summarize.FirstMatch | oncopulse/summarize.py:41-43 | the match chosen is one of the patterns' matches |
| Summarize.Population | oncopulse/summarize.py:34-49 | the population never states a number |
| Summarize.FirstMatchIs | oncopulse/summarize.py:41-48 | the first pattern that matches decides; later patterns are not consulted |
| Summarize.PopulationSpec | oncopulse/summarize.py:34-49 | the population is the stripped match of the first matching pattern, or "Not stated" when that holds a number or none matches |
| Summarize.Intervention | oncopulse/summarize.py:52-65 | the comparison match decides when there is one, else the "received" match; a match holding a number, or no match, gives "Not stated"; the result never states a number |
| Summarize.EndpointTokensShown | oncopulse/summarize.py:71-73 | exactly the tokens "os", "pfs" and "orr" are shown upper-cased |
| Summarize.ExtractEndpoints | oncopulse/summarize.py:68-74 | the loop of `_extract_endpoints` gives the endpoints line of the lower-cased text |
| Summarize.TokensFoundSpec | oncopulse/summarize.py:71-73 | a name is collected exactly when one of its tokens occurs |
| Summarize.EndpointsTextSpec | oncopulse/summarize.py:68-74 | with no token in the text the line is "Not stated"; otherwise it lists, sorted and each once, the shown names of exactly the tokens that occur, joined by ", " |
| Summarize.SentenceBreak | oncopulse/summarize.py:78 | a split point is whitespace following a sentence end, or the text's end |
| Summarize.SplitSentences | oncopulse/summarize.py:78 | the split gives at least one piece |
| Summarize.SplitSentencesOneLine | oncopulse/summarize.py:78 | the pieces of one-line text are one-line |
| Summarize.FirstCueSentence | oncopulse/summarize.py:90-92 | the sentence found is one of the sentences |
| Summarize.KeyFindingSpec | oncopulse/summarize.py:77-97 | the first sentence holding a cue decides: it is the key finding, stripped, unless it holds a number; with no cue the finding is "Not explicitly stated in provided text" |
| Summarize.KeyFindingPlain | oncopulse/summarize.py:77-97 | the key finding never states a number, and it is one line when the text is |
| Summarize.LongSentencesStep | oncopulse/summarize.py:103-109 | one loop step keeps the collapsed piece when it has at least 30 characters |
| Summarize.LongSentencesCap | oncopulse/summarize.py:110-111 | once the first pieces yield the cap, those are the first kept sentences |
| Summarize.CleanSentences | oncopulse/summarize.py:100-112 | `_clean_sentences`: the first `max(max_sentences, 1)` collapsed pieces of at least 30 characters |
| Summarize.KeepLongSentences | oncopulse/summarize.py:103-111 | the loop over the pieces keeps long ones and stops at the cap |
| Summarize.LongSentencesShape | oncopulse/summarize.py:104-109 | every kept sentence is one trimmed, single-spaced line of at least 30 characters |
| Summarize.CleanSentencesBound | oncopulse/summarize.py:100-112 | at most `max(max_sentences, 1)` sentences come back, each trimmed, single-spaced and 30 characters or longer |
| Summarize.SafetySignalIff | oncopulse/summarize.py:115-117 | "adverse events" adds nothing: the signal holds exactly when one of the other four cues occurs |
| Summarize.SanitizeWhyTextAsWritten | oncopulse/summarize.py:120-125 | `_sanitize_why_text` as written: one pass removing each phrase in turn, then collapsing and stripping |
| Summarize.HasBannedIff | oncopulse/summarize.py:7-14 | a text holds a banned phrase exactly when some phrase matches somewhere, ignoring case |
| Summarize.ReplaceCIAbsent | oncopulse/summarize.py:123 | text in which the phrase never matches is left as it is |
| Summarize.ReplaceCIShrinks | oncopulse/summarize.py:123 | replacing a phrase by one space never lengthens the text, and shortens it when the phrase matches |
| Summarize.RemovedShrinks | oncopulse/summarize.py:122-123 | removing the phrases never lengthens the text, and shortens it when one of them matches |
| Summarize.PassShrinks | oncopulse/summarize.py:120-125 | a pass shortens text that holds a banned phrase |
| Summarize.PassShape | oncopulse/summarize.py:124 | a pass leaves one trimmed, single-spaced line |
| Summarize.PassFixes | oncopulse/summarize.py:120-125 | clean text without banned phrases is a fixed point of a pass |
| Summarize.SanitizePassLeavesBanned | oncopulse/summarize.py:120-125 | one pass can leave a banned phrase: "mustmust useuse" becomes "must use" |
| Summarize.Resanitized | oncopulse/summarize.py:120-125 | passes repeated until no banned phrase is left leave none |
| Summarize.SanitizeWhyText | oncopulse/summarize.py:120-125 | the corrected sanitiser computes the repeated passes |
| Summarize.SanitizedSpec | oncopulse/summarize.py:120-125 | the corrected sanitiser leaves one trimmed, single-spaced line with no banned phrase, agrees with the single pass whenever that pass already succeeds, and is idempotent |
| Summarize.NoInfoWhyClean | oncopulse/summarize.py:6 | the fixed "why it matters" line holds no banned phrase and is the label and a one-line value |
| Summarize.PassKeepsHead | oncopulse/summarize.py:155-156 | a pass keeps the "Why it matters:" head and changes only what follows it |
| Summarize.SanitizedKeepsHead | oncopulse/summarize.py:155-156 | the corrected sanitiser keeps the head, and the line is clean |
| Summarize.CheckedShape | oncopulse/summarize.py:157-159 | after the final check the line holds no banned phrase and is the label and a one-line value |
| Summarize.WhyShape | oncopulse/summarize.py:128-159 | the "why it matters" line is "Why it matters: " and a value without line breaks, and holds no banned phrase |
| Summarize.SummaryLines | oncopulse/summarize.py:186-194 | the summary has seven lines |
| Summarize.TextValues | oncopulse/summarize.py:177-185 | the summary has six values before the why line |
| Summarize.SnippetsTextOneLine | oncopulse/summarize.py:183-185 | the snippets value is one line |
| Summarize.SummaryLinesValid | oncopulse/summarize.py:186-194 | six one-line values under their labels and a labelled why line make exactly those seven lines, which pass the structured-summary check |
| Summarize.TextValuesFacts | oncopulse/summarize.py:177-185 | each value is one line; the study type, population, intervention and key finding state no number |
| Summarize.DeterministicSpec | oncopulse/summarize.py:162-194 | the deterministic summary is seven labelled lines in label order and passes the structured-summary check; without text it is the fixed summary |
| Summarize.SummarizeItemValid | oncopulse/summarize.py:162-199 | every summary passes the structured-summary check, polished or not |
| Summarize.PolishKeepsValid | oncopulse/summarize.py:198-199 | polishing a valid summary yields a valid summary, whether the polish is accepted or not |
| Summarize.SummarizeItemUnpolished | oncopulse/summarize.py:165-197 | without polishing, without an API key or without text, the reply is never consulted |
| Scoring.Weights | oncopulse/scoring.py:48-57 | the weights in force have exactly the default keys |
| Scoring.WeightsWithoutOverrides | oncopulse/scoring.py:48-50 | without overrides the weights are the defaults |
| Scoring.WeightsOverrideStep | oncopulse/scoring.py:51-56 | one more override entry: an unknown key, or a value `float()` rejects, changes nothing; a known key with a number replaces exactly that weight |
| Scoring.ResolveWeights | oncopulse/scoring.py:48-57 | the loop of `_resolved_weights` gives the weights in force |
| Scoring.TotalSnoc | oncopulse/scoring.py:166-229 | one more hit adds its points to the score |
| Scoring.TextsSnoc | oncopulse/scoring.py:166-229 | one more hit adds its explanation line |
| Scoring.ReadShownPoints | oncopulse/scoring.py:173 | a line laid out as a sign, digits, a space and text reads back as the signed number |
| Scoring.ShownPointsOfText | oncopulse/scoring.py:173 | the number shown by a hit's explanation line is the hit's points |
| Scoring.ShownTotalOfTexts | oncopulse/scoring.py:166-229 | the numbers shown in the explanation lines add up to the total of the hits |
| Scoring.SampleSizeBoostIff | oncopulse/scoring.py:42-45 | the sample-size rule fires exactly when a labelled count of at least 200 occurs somewhere in the lower-cased text |
| Scoring.RuleFiresOnce | oncopulse/scoring.py:169-211 | with distinct reasons, a rule explains itself exactly once when it fires and never otherwise, and its hit carries the rule's points |
| Scoring.BoostsAndPenaltiesFireOnce | oncopulse/scoring.py:169-211 | each boost and each penalty category fires at most once |
| Scoring.PhaseThreeFiresBoth | oncopulse/scoring.py:29-34 | "phase ii" is a prefix of "phase iii": text that earns the phase III boost also earns the phase II boost |
| Scoring.PhaseThreeAlsoPhaseTwo | oncopulse/scoring.py:169-173 | both phase boosts appear among the hits of text that mentions phase III |
| Scoring.RepeatedTermCountsTwice | oncopulse/scoring.py:213-223 | an include or exclude term listed twice counts twice |
| Scoring.TermHitsConcat | oncopulse/scoring.py:213-223 | the hits of a term list are the hits of its parts, one per entry found |
| Scoring.CleanTerms | oncopulse/scoring.py:95 | the cleaned keywords are non-empty |
| Scoring.KeywordMatches | oncopulse/scoring.py:96 | the keyword hits are exactly the keywords found in the blob |
| Scoring.KeywordCounted | oncopulse/scoring.py:97-98 | the counted keywords are the distinct ones found, at most 6, and zero exactly when none is found |
| Scoring.AtLeastHalfIsRatio | oncopulse/scoring.py:104 | the integer coverage test agrees with the ratio test of the source |
| Scoring.CountConceptHits | oncopulse/scoring.py:82-88 | the loop counts the concept groups with a term in the blob |
| Scoring.PhraseBoost | oncopulse/scoring.py:75-79 | the exact-phrase step adds the phrase hit and its points |
| Scoring.ConceptBoost | oncopulse/scoring.py:81-92 | the concept step adds the concept hit and its points |
| Scoring.KeywordBoost | oncopulse/scoring.py:94-107 | the keyword and coverage steps add their hits and points |
| Scoring.QueryRelevanceBoost | oncopulse/scoring.py:68-109 | `_query_relevance_boost`: the phrase, concept, keyword and coverage hits, in that order, and their total |
| Scoring.PhraseHitsShape | oncopulse/scoring.py:75-79 | at most one phrase hit, only when the raw query occurs in the blob |
| Scoring.ConceptHitsShape | oncopulse/scoring.py:81-92 | at most one concept hit |
| Scoring.KeywordHitsShape | oncopulse/scoring.py:94-107 | at most a keyword hit and a coverage hit, the latter only with coverage |
| Scoring.QueryBoostShape | oncopulse/scoring.py:68-109 | no context, no boost; at most four hits; the phrase boost needs a query of at least 12 characters found in the blob; the coverage boost needs at least three distinct keywords, half of them found |
| Scoring.FireRules | oncopulse/scoring.py:169-211 | one pass over rules adds the points and the explanation of each rule that fires |
| Scoring.MatchTerms | oncopulse/scoring.py:213-223 | one pass over a term list adds one hit per entry found |
| Scoring.AddIf | oncopulse/scoring.py:175-201 | a rule that fires adds its points and explanation |
| Scoring.FireEvidenceRules | oncopulse/scoring.py:175-188 | the survival and sample-size rules |
| Scoring.FireVenueRules | oncopulse/scoring.py:190-201 | the journal and citation rules |
| Scoring.FireTermRules | oncopulse/scoring.py:203-223 | the penalty, include-term and exclude-term passes |
| Scoring.FireRestRules | oncopulse/scoring.py:175-223 | every rule after the boosts, section by section |
| Scoring.RenderExplain | oncopulse/scoring.py:173 | the explanation line of each hit, in order |
| Scoring.ScoreItem | oncopulse/scoring.py:155-229 | `score_item`: the score is the total of the hits, the explanation their lines, and the numbers shown in the explanation add up to the score |
| Scoring.ScoreAndAttach | oncopulse/scoring.py:232-241 | `score_and_attach`: the record with its score and explanation set and nothing else changed; the shown numbers add up to the score |
| Scoring.RuleHitsAlike | oncopulse/scoring.py:169-211 | rules that fire alike on two texts give the same hits |
| Scoring.BoostHitsPhaseThree | oncopulse/scoring.py:169-173 | the boost hits of phase III text are those of the phase II text plus the phase III hit in front |
| Scoring.PhaseThreeOutscoresPhaseTwo | tests/test_scoring.py:14-29 | of two records differing only in their phase wording, the phase III one scores the phase III weight more, so more under the default weights |
| Scoring.PhaseThreeOverrideWeight | tests/test_scoring.py:44-54 | an override of `phase_iii` to 12 makes the phase III boost worth 12 points |
| Scoring.PhaseThreeOverrideExplained | tests/test_scoring.py:44-54 | phase III text scored with that override explains "+12 phase iii" |
| PipelineOptions.GetModePreset | oncopulse/services/run_pipeline.py:152-153 | the named preset, or the "All" preset for any other name |
| PipelineOptions.PresetFacts | oncopulse/services/run_pipeline.py:26-122 | every preset enables trials; only "Researcher" uses open-access full text; only the clinician mode restricts to phase II/III and to RCT or meta-analysis records; an unknown name gets no weight overrides |
| PipelineOptions.AppendIfMembers | oncopulse/services/run_pipeline.py:158-167 | a conditional append adds the name exactly when its flag is set |
| PipelineOptions.BuildSourcesKey | oncopulse/services/run_pipeline.py:156-168 | the appends of `build_sources_key` build the key the functional definition gives |
| PipelineOptions.SelectedMembers | oncopulse/services/run_pipeline.py:157-167 | each source name is selected exactly when its flag is set, in the fixed order, and "none" never is |
| PipelineOptions.SourcesKeyNone | oncopulse/services/run_pipeline.py:168 | the key is "none" exactly when no source is enabled |
| PipelineOptions.SourcesKeyDeterminesSources | oncopulse/services/run_pipeline.py:156-168 | two option sets share a sources key exactly when they enable the same sources |
| PipelineOptions.ResolveIncrementalDaysBack | oncopulse/services/run_pipeline.py:183-211 | a forced refresh returns `days_back` and no run; otherwise the latest success of the same scope, mode and sources key is returned and sets the window |
| PipelineOptions.WindowBounds | oncopulse/services/run_pipeline.py:192-211 | the window never exceeds the cap; after a success whose time parses it is the elapsed days rounded up, at least one, unless the cap cuts it short; otherwise `min(days_back, cap)` |
| PipelineOptions.TwoDaysAgo | tests/test_incremental_runs.py:23-43 | a success two days (and under a second more) ago, with a cap of at least 3, gives 2 or 3 days |
| PipelineOptions.ApplyFiltersSpec | oncopulse/services/run_pipeline.py:214-226 | the filter keeps, in order, exactly the records that pass every enabled check, and keeps all of them when both checks are off |
| PipelineOptions.QueryKey | oncopulse/services/run_pipeline.py:246-247 | the scope name is "query:" followed by at most 180 characters |
| PipelineOptions.QueryKeyCanonical | oncopulse/services/run_pipeline.py:246-247 | queries that differ only in case and surrounding whitespace share a scope |
| PipelineOptions.AnyTermSpec | oncopulse/services/run_pipeline.py:285 | some keyword matches exactly when one of them is contained as a query term |
| PipelineOptions.AnyConceptSpec | oncopulse/services/run_pipeline.py:279-282 | some concept group matches exactly when a list group holds a term contained in the blob |
| PipelineOptions.IsSearchRelevantSpec | oncopulse/services/run_pipeline.py:274-292 | a record is relevant exactly when its blob is not blank and holds a term of some concept group, a keyword, or the raw query of at least four characters |
| PipelineOptions.AlnumTermNeedsWord | oncopulse/services/run_pipeline.py:263-271 | a term of ASCII letters and digits that occurs only inside longer words does not match |
| Pipeline.Tagged | oncopulse/services/run_pipeline.py:312-314 | tagging keeps one record per record |
| Pipeline.TagItems | oncopulse/services/run_pipeline.py:312-314 | the tagging loop after a connector call sets the run's specialty and subcategory on each record |
| Pipeline.IngestForQuery | oncopulse/services/run_pipeline.py:295-391 | `_ingest_for_query` gives the ingestion outcome the functional definition gives |
| Pipeline.IngestCalls | oncopulse/services/run_pipeline.py:305-391 | before each planned call the timeout is checked; a call that raises adds nothing and the later calls still run |
| Pipeline.CallConnector | oncopulse/services/run_pipeline.py:307-315 | one guarded connector call: its records, tagged, or none when it raises |
| Pipeline.GatheredConcat | oncopulse/services/run_pipeline.py:303-391 | gathering over two runs of calls is the two gatherings, one after the other |
| Pipeline.RaisingCallIsolated | oncopulse/services/run_pipeline.py:307-311 | a call that raises contributes nothing, and the calls before and after it contribute as they would without it |
| Pipeline.SkippedCall | oncopulse/services/run_pipeline.py:303-391 | a call that contributes nothing can be dropped from the plan |
| Pipeline.GatheredTagged | oncopulse/services/run_pipeline.py:312-389 | every gathered record carries the run's specialty and subcategory |
| Pipeline.PlanSpec | oncopulse/services/run_pipeline.py:305-389 | a connector is called exactly when its source is enabled, RSS only when papers are enabled too, in the source's order |
| Pipeline.QueryRouting | oncopulse/services/run_pipeline.py:308-383 | paper connectors get the paper query and trial connectors the trial query; the RSS and trial calls get no day window |
| Pipeline.IngestWithoutTimeout | oncopulse/services/run_pipeline.py:303-391 | without a timeout, ingestion gathers every planned call's records |
| Pipeline.Kept | oncopulse/services/run_pipeline.py:407-412 | the number of records processed lies between the start and the list's length |
| Pipeline.KeptIs | oncopulse/services/run_pipeline.py:407-412 | the processed count is m when the m checks pass and the next one, if any, fails |
| Pipeline.KeptSpec | oncopulse/services/run_pipeline.py:407-412 | the processed count stops at the first check that times out, and only there |
| Pipeline.AddFullText | oncopulse/services/run_pipeline.py:416-419 | the full-text stage sets the enrichment for PubMed and Europe PMC records when enabled, keeping fingerprint and mode |
| Pipeline.AddCitations | oncopulse/services/run_pipeline.py:420-431 | the citation stage: OpenAlex through the cache, then Semantic Scholar if enabled, each record keeping fingerprint and mode; only the citation cache changes |
| Pipeline.PrepareItem | oncopulse/services/run_pipeline.py:414-434 | every stage before the upsert; the record carries its computed fingerprint and the run's mode |
| Pipeline.ProcessItem | oncopulse/services/run_pipeline.py:414-436 | the finalize loop body for one record updates the item table and citation cache by one step, nothing else |
| Pipeline.FinalizeItems | oncopulse/services/run_pipeline.py:394-446 | `_finalize_items`: filter, deduplicate, then store records until a check times out; the run is finished as `timeout` or `success` with the ingested count and the number stored |
| Pipeline.ProcessUntilTimeout | oncopulse/services/run_pipeline.py:405-436 | the loop stores exactly the records before the first failed check |
| Pipeline.Advance | oncopulse/services/run_pipeline.py:407-436 | one turn of the loop stops at the end or on a failed check, and otherwise stores the next record |
| Pipeline.Stop | oncopulse/services/run_pipeline.py:407-412 | the loop stops exactly when the list is exhausted or the run is out of time |
| Pipeline.PersistNext | oncopulse/services/run_pipeline.py:414-436 | storing the next record extends the stored prefix by one |
| Pipeline.FinalizedCounts | oncopulse/services/run_pipeline.py:438-446 | the stored count is no more than the filtered, deduplicated list, which is no more than the ingested count reported |
| Pipeline.StepFindable | oncopulse/services/run_pipeline.py:414-435 | one step keeps the item table well formed, stores the record under its fingerprint and loses no fingerprint |
| Pipeline.PersistedFindable | oncopulse/services/run_pipeline.py:407-436 | every record processed is stored under its fingerprint afterwards, and no earlier fingerprint is lost |
| Pipeline.IngestAndFinalize | oncopulse/services/run_pipeline.py:467-487 | a timeout during ingestion finishes the run as `timeout` with zero counts and stores nothing; otherwise the records are finalised |
| Pipeline.RunPipeline | oncopulse/services/run_pipeline.py:449-490 | `run_pipeline`: resolve the window, create the run, load the pack, ingest and finalise; a missing pack marks the run failed; a timeout during ingestion reports zero counts |
| Pipeline.AsGroups | oncopulse/services/run_pipeline.py:535 | the concept groups handed to scoring, one per group |
| Pipeline.RunPipelineQuery | oncopulse/services/run_pipeline.py:493-560 | `run_pipeline_query`: a blank query reports failure and touches nothing; otherwise the search scope's records are cleared before the run is created, the query is expanded, and only the relevant records are finalised; the run ledger gains the started `search` run, finished as `timeout` with no counts when the time runs out and otherwise with the ingest status and counts; topics are untouched |

## Left out

- The network: every `requests` call, sessions and User-Agent headers. Connector answers, the Semantic Scholar citation lookup and the language model's reply are inputs.
- Retry sleeps and back-off between the attempts of every connector: retry loops are modelled over the outcomes of their attempts, without the waiting.
- The `_request_with_retry` helpers of `oncopulse/ingest/pubmed.py` and `oncopulse/ingest/clinicaltrials.py` are answer oracles: a request either answers with the next page or fails.
- XML parsing of PubMed and of the JATS full text, and RSS parsing: the model starts from the already extracted fields.
- RFC 5322 dates of RSS items (section 3.3 of RFC 5322, through `email.utils`) are a `ParseDate` parameter.
- The openFDA staleness test that uses `strptime` is a `Stale` parameter.
- RSS fetching is folded into the generic group loop of `Collect`; the list of feeds to read comes from a pure parameter, not from fetching.
- The Europe PMC request raising an exception is modelled as a missing answer.
- Answers of ClinicalTrials.gov that are JSON but not an object are not modelled; the page-token loop is bounded by the finite sequence of answers.
- Wall-clock time: `time.monotonic` and `datetime.now` become the clock parameter and elapsed-day parameters; ISO timestamp parsing is a parameter.
- Floating point: `citations_per_year`, `hot_score` and the `log1p` citation bonus of `oncopulse/scoring.py`; the bonus is an uninterpreted integer function.
- SHA-1 of the title fingerprint is an uninterpreted function of the title and year string.
- SQLite itself and the schema migration of `init_db`; the tables are sequences and maps of `Db.Store`.
- `get_items` of `oncopulse/db.py` (lines 181-188) is not modelled; nothing in the core calls it.
- The full-text cache table: `get_cached_full_text` and `set_cached_full_text` are not part of this model.
- `str.lower`, `str.isdigit`, `str.isalnum` and the regex `\b` are modelled on ASCII letters and digits only, and so is the case folding of `re.IGNORECASE` matching (oncopulse/summarize.py:42, 53, 59 and 123, modelled by `Summarize.ReplaceCI`, which folds ASCII case only). `PipelineOptions.AllAlnum` uses the ASCII test, so a query term with a non-ASCII letter, such as `café`, is matched as a substring by the model where the source requires word boundaries.
- PipelineOptions.AlnumTermNeedsWord: holds for terms made of ASCII letters and digits only; a term that Python's `str.isalnum` accepts but the ASCII test does not (such as `café`) is word-bounded in the source (oncopulse/services/run_pipeline.py:267) and substring-matched in the model, so the lemma says nothing about it.
- The regular expressions of `oncopulse/summarize.py` (population, intervention) and the concept patterns of `oncopulse/nlp.py` are match parameters; the model assumes only that their matches are one line.
- `oncopulse/packs.py` (YAML loading) is not part of this model: `get_pack` is a parameter, and a missing pack is the error it raises.
- The Streamlit interface, `oncopulse/ingest/semanticscholar.py`, `oncopulse/ingest/source_extract.py`, `oncopulse/config.py` and `oncopulse/models.py` are not part of this model.
- There is no concurrency in the core, so none is modelled.
- Summarize.BuildWhyItMatters: uses the corrected sanitiser `Summarize.Sanitized`, which repeats the single removal pass of `_sanitize_why_text` until nothing changes; as written one pass can leave a banned phrase (see Findings, `Summarize.SanitizePassLeavesBanned`), so for such a status line the model's "why it matters" line differs from the source's.
- Summarize.WhyShape: the absence of banned phrases it states holds for the corrected sanitiser only; the source as written does not keep that promise (see Findings).
- Summarize.DeterministicSpec: the deterministic summary it describes is built with the corrected sanitiser; its seven-line shape holds as written too, its freedom from banned phrases does not.
- Summarize.SummarizeItem: polishes with `Llm.PolishSummaryStrict`, which keeps the reply's line breaks; as written (`Llm.PolishSummaryAsWritten`) every reply is rejected (see Findings), so with polishing on, an API key and a well-formed reply the model returns the reformatted reply where the source returns the deterministic summary. The summaries stored by `Pipeline.PrepareItem`, `Pipeline.FinalizeItems`, `Pipeline.RunPipeline` and `Pipeline.RunPipelineQuery` inherit both corrections.
- TextUtils.Unescape: numeric references are decoded as `html.unescape` does; of the named references only `&amp`, `&lt`, `&gt`, `&quot` and `&nbsp` (with or without `;`) and `&apos;` are decoded. The other HTML5 names, and the longest-prefix matching of names without `;` against the whole table, are not modelled.
- FullTextOa.NormalizePmcid and FullTextOa.CacheKey: `str.upper` is modelled on ASCII letters only; the case mapping of other letters (such as `ß` becoming `SS`) is not.
- FullTextOa.EnrichItemFromOaFullText, FullTextOa.EnrichedTouchesFullTextOnly: the `full_text_sections` entry that enrichment also sets on the record (the labelled sections) is not a field of `Records.Item`; `oncopulse/db.py` and `oncopulse/services/run_pipeline.py` never read it, so nothing stored or ranked depends on it.
- Patterns.SkipDigits, FullTextOa.DigitRun and Dedup.FirstYear: the regex `\d` is modelled as the ASCII digits; Python's `\d` also matches the other Unicode decimal digits.
- Scoring.WeightsOverrideStep: override values are exact numbers; floating point `inf` and `nan`, which `float()` accepts and the later `int()` rejects with an exception, are not modelled.
- Pipeline.RunPipeline: a timeout raised while the connectors are still being called finishes the run as `timeout` with an ingested count of 0 and stores nothing; the records gathered before the timeout are discarded.

## Findings

| source | as written | input that shows it | evidently intended | confidence | as-written member | corrected member |
|---|---|---|---|---|---|---|
| oncopulse/llm.py:112-117 | the reply is passed through `clean_text`, which turns all whitespace into single spaces, before the seven labelled lines are checked, so at most one label is ever found and `polish_summary_strict` always returns nothing | any reply of the seven labelled lines, such as the deterministic summary itself | the reply's line breaks are kept (as `clean_multiline_text` does) so that a well-formed reply can pass | high, not executed | Llm.PolishAsWrittenAlwaysNone | Llm.PolishStrictAcceptsCleanReply |
| oncopulse/ingest/rss_feeds.py:74-77 | the limit is checked only after a record has been appended, so a limit of zero or less returns one record when any feed item matches | `limit = 0` with one matching feed item | no records for a non-positive limit, as the other connectors do | medium, not executed | RssFeeds.AsWrittenIgnoresLimit | RssFeeds.SearchSpec |
| oncopulse/summarize.py:120-125 | each banned phrase is removed in a single pass, and removing one occurrence can join its neighbours into a new one | "mustmust useuse" becomes "must use" | the "why it matters" line holds no banned phrase after sanitising | high, not executed | Summarize.SanitizePassLeavesBanned | Summarize.SanitizedSpec |
