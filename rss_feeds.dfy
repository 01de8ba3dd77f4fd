/**
 * The journal RSS connector: every configured feed in turn, each item of a feed that was
 * fetched and parsed, the term filter, and the limit. Fetching and XML parsing are an input
 * (a feed's items, or `None` when the request, its status or the parse fails), and so is the
 * RFC 5322 date parser.
 */
module RssFeeds {
  import opened Wrappers
  import opened Strings
  import opened Records
  import opened QueryTerms
  import opened Collect

  /** `JOURNAL_RSS_FEEDS` */
  const JournalRssFeeds: seq<string> := [
    "https://www.nejm.org/rss/current.xml",
    "https://ascopubs.org/action/showFeed?jc=jco&type=etoc&feed=rss",
    "https://www.thelancet.com/rssfeed/lancet_online.xml",
    "https://ashpublications.org/rss/site_1000003/1000003.xml"
  ]

  /** The texts of one `<item>`'s children that the record is built from. */
  datatype Node = Node(
    title: Option<string>,
    link: Option<string>,
    description: Option<string>,
    pubDate: Option<string>,
    source: Option<string>
  )

  /** The items of the feed at a URL; `None` when the request fails, answers an error status, or does not parse. */
  type Fetch = string -> Option<seq<Node>>

  /** The ISO date of a non-empty RFC 5322 date text; `None` when it does not parse. */
  type ParseDate = string -> Option<string>

  /** An item together with the URL of the feed it came from. */
  datatype Entry = Entry(feedUrl: string, node: Node)

  /** The entries of one feed, in the feed's order; none when it could not be read. */
  function EntriesOf(url: string, fetch: Fetch): seq<Entry> {
    var nodes := fetch(url);
    if nodes.None? then [] else seq(|nodes.value|, k requires 0 <= k < |nodes.value| => Entry(url, nodes.value[k]))
  }

  /** The entries of each feed. */
  function Feeds(urls: seq<string>, fetch: Fetch): (r: seq<seq<Entry>>)
    ensures |r| == |urls|
  {
    seq(|urls|, i requires 0 <= i < |urls| => EntriesOf(urls[i], fetch))
  }

  /** The entries of all feeds, feed after feed. */
  function Entries(urls: seq<string>, fetch: Fetch): seq<Entry> {
    Flatten(Feeds(urls, fetch))
  }

  /** `_parse_rss_date`: nothing for a missing or empty date. */
  function PubDate(parse: ParseDate, text: Option<string>): Option<string> {
    if Truthy(text) then parse(text.value) else None
  }

  /** The stripped title, link and description. */
  function TitleOf(n: Node): string { Strip(OrEmpty(n.title)) }
  function LinkOf(n: Node): string { Strip(OrEmpty(n.link)) }
  function DescOf(n: Node): string { Strip(OrEmpty(n.description)) }

  /** The match test: title and description, joined by a space, against the terms. */
  function Relevant(terms: seq<string>): Entry -> bool {
    (e: Entry) => Matches(TitleOf(e.node) + " " + DescOf(e.node), terms)
  }

  /** The record appended for an item. */
  function JournalItem(parse: ParseDate): Entry -> Item {
    (e: Entry) => Item(source := "journal_rss",
              title := if TitleOf(e.node) != "" then TitleOf(e.node) else "Untitled journal item",
              url := Some(if LinkOf(e.node) != "" then LinkOf(e.node) else e.feedUrl),
              publishedAt := PubDate(parse, e.node.pubDate),
              updatedAt := None,
              pmid := None, doi := None, nctId := None,
              venue := Some(Strip(if Truthy(e.node.source) then e.node.source.value else "RSS Journal")),
              authors := None,
              abstractOrText := Some(DescOf(e.node)))
  }

  /** Python's `xs[:n]`, a negative `n` counting from the end. */
  function SliceTo<T>(xs: seq<T>, n: int): (r: seq<T>)
    ensures n >= 0 ==> r == Take(xs, n)
    ensures n < 0 ==> |r| == if |xs| + n < 0 then 0 else |xs| + n
    ensures r <= xs
  {
    if n >= 0 then Take(xs, n)
    else if |xs| + n < 0 then []
    else xs[..|xs| + n]
  }

  /** What `search(query, limit)` returns as written, over the feeds at `urls`. */
  function SearchAsWritten(query: string, limit: int, urls: seq<string>, fetch: Fetch, parse: ParseDate): seq<Item> {
    Selected(Entries(urls, fetch), Relevant(Terms(query)), JournalItem(parse), limit)
  }

  /**
   * `search` as written: for each feed that was read, the loop over its items appends the
   * record of each matching one and returns as soon as `limit` are held; after the last feed
   * it returns `items[:limit]`.
   */
  method SearchFeedsAsWritten(query: string, limit: int, urls: seq<string>, fetch: Fetch, parse: ParseDate)
    returns (items: seq<Item>)
    ensures items == SearchAsWritten(query, limit, urls, fetch, parse)
  {
    var terms := TermsFromQuery(query);
    var full;
    items, full := ExtendGroups(Feeds(urls, fetch), Relevant(terms), JournalItem(parse), limit);
    if full {
      return;
    }
    items := SliceTo(items, limit);
  }

  /** `search` with a non-positive limit answered by no records before any feed is read. */
  function Search(query: string, limit: int, urls: seq<string>, fetch: Fetch, parse: ParseDate): seq<Item> {
    if limit <= 0 then [] else SearchAsWritten(query, limit, urls, fetch, parse)
  }

  /** `search`, its limit guarded. */
  method SearchFeeds(query: string, limit: int, urls: seq<string>, fetch: Fetch, parse: ParseDate)
    returns (items: seq<Item>)
    ensures items == Search(query, limit, urls, fetch, parse)
  {
    if limit <= 0 {
      return [];
    }
    items := SearchFeedsAsWritten(query, limit, urls, fetch, parse);
  }

  // ---------------------------------------------------------------- properties

  /**
   * As written, a non-positive limit does not stop the first matching item: the loop checks
   * the limit only after appending, so one record comes back whenever any feed holds a match.
   */
  lemma AsWrittenIgnoresLimit(query: string, limit: int, urls: seq<string>, fetch: Fetch, parse: ParseDate)
    requires limit <= 0
    requires Filter(Entries(urls, fetch), Relevant(Terms(query))) != []
    ensures |SearchAsWritten(query, limit, urls, fetch, parse)| == 1
    ensures |SearchAsWritten(query, limit, urls, fetch, parse)| > limit
  {
  }

  /**
   * The guarded search returns no more records than the limit allows (none for a
   * non-positive one): the first records of the matching items, feed after feed and in each
   * feed's order, and all of them when there are few enough.
   */
  lemma SearchSpec(query: string, limit: int, urls: seq<string>, fetch: Fetch, parse: ParseDate)
    ensures |Search(query, limit, urls, fetch, parse)| <= if limit < 0 then 0 else limit
    ensures Search(query, limit, urls, fetch, parse)
      <= Built(Filter(Entries(urls, fetch), Relevant(Terms(query))), JournalItem(parse))
    ensures limit > 0 && |Filter(Entries(urls, fetch), Relevant(Terms(query)))| <= limit
      ==> Search(query, limit, urls, fetch, parse) == Built(Filter(Entries(urls, fetch), Relevant(Terms(query))), JournalItem(parse))
  {
    SelectedSpec(Entries(urls, fetch), Relevant(Terms(query)), JournalItem(parse), limit);
  }

  /**
   * The entries are the feeds' items, feed after feed: a feed that could not be read adds
   * none, and each entry keeps the URL of its feed.
   */
  lemma EntriesSpec(urls: seq<string>, fetch: Fetch)
    ensures forall e | e in Entries(urls, fetch) ::
      e.feedUrl in urls && fetch(e.feedUrl).Some? && e.node in fetch(e.feedUrl).value
    ensures forall u | u in urls && fetch(u).Some? :: forall n | n in fetch(u).value :: Entry(u, n) in Entries(urls, fetch)
  {
    var feeds := Feeds(urls, fetch);
    forall e | e in Entries(urls, fetch)
      ensures e.feedUrl in urls && fetch(e.feedUrl).Some? && e.node in fetch(e.feedUrl).value
    {
      var i := FlattenFrom(feeds, e);
      var k :| 0 <= k < |feeds[i]| && feeds[i][k] == e;
      assert e == Entry(urls[i], fetch(urls[i]).value[k]);
    }
    forall u | u in urls && fetch(u).Some?
      ensures forall n | n in fetch(u).value :: Entry(u, n) in Entries(urls, fetch)
    {
      var i :| 0 <= i < |urls| && urls[i] == u;
      forall n | n in fetch(u).value
        ensures Entry(u, n) in Entries(urls, fetch)
      {
        var k :| 0 <= k < |fetch(u).value| && fetch(u).value[k] == n;
        assert feeds[i][k] == Entry(u, n);
        FlattenHas(feeds, i, Entry(u, n));
      }
    }
  }

  /**
   * A record is a "journal_rss" record with a non-empty title (the item's, or "Untitled
   * journal item"); it links to the item's link, or to its feed when the item has none, and
   * its venue is the item's source, else "RSS Journal", stripped.
   */
  lemma JournalItemSpec(parse: ParseDate, e: Entry)
    ensures JournalItem(parse)(e).source == "journal_rss"
    ensures JournalItem(parse)(e).title != ""
    ensures LinkOf(e.node) != "" ==> JournalItem(parse)(e).url == Some(LinkOf(e.node))
    ensures LinkOf(e.node) == "" ==> JournalItem(parse)(e).url == Some(e.feedUrl)
    ensures !Truthy(e.node.source) ==> JournalItem(parse)(e).venue == Some("RSS Journal")
    ensures !Truthy(e.node.pubDate) ==> JournalItem(parse)(e).publishedAt == None
  {
    StripOfTrimmed("RSS Journal");
  }

  /** The connector reads the four configured journal feeds. */
  function SearchJournals(query: string, limit: int, fetch: Fetch, parse: ParseDate): (r: seq<Item>)
    ensures |r| <= if limit < 0 then 0 else limit
  {
    SearchSpec(query, limit, JournalRssFeeds, fetch, parse);
    Search(query, limit, JournalRssFeeds, fetch, parse)
  }
}
