/**
 * The SQLite store as the pipeline uses it: the `items` table (one row per fingerprint),
 * the `notes` attached to items, the `citation_cache` keyed by lower-cased DOI and the
 * `run_history` ledger. Each table is a field of `Store`; each statement is a method that
 * reassigns the fields it touches. A table is its rows in rowid order, and AUTOINCREMENT
 * ids come from counters that deleting rows never resets. `_now_iso_utc()` is the `now`
 * parameter.
 */
module Db {
  import opened Wrappers
  import opened Strings
  import opened Records
  import Json

  // ---------------------------------------------------------------- rows

  /** One row of `items`. */
  datatype ItemRow = ItemRow(
    id: int,
    specialty: string,
    subcategory: string,
    modeName: Option<string>,
    source: string,
    title: string,
    url: Option<string>,
    publishedAt: Option<string>,
    updatedAt: Option<string>,
    pmid: Option<string>,
    doi: Option<string>,
    nctId: Option<string>,
    venue: Option<string>,
    authors: Option<string>,
    abstractOrText: Option<string>,
    score: int,
    scoreExplainJson: string,
    summaryText: Option<string>,
    citations: Option<int>,
    citationsSource: Option<string>,
    fingerprint: string,
    createdAt: string,
    lastSeenAt: string
  )

  /** One row of `notes`. */
  datatype NoteRow = NoteRow(id: int, itemId: int, starred: bool, noteText: string, createdAt: string, updatedAt: string)

  /** One row of `citation_cache`. */
  datatype CitationRow = CitationRow(doi: string, citedByCount: Option<int>, fetchedAt: string)

  /** One row of `run_history`. */
  datatype RunRow = RunRow(
    id: int,
    specialty: string,
    subcategory: string,
    modeName: Option<string>,
    sourcesKey: Option<string>,
    resolvedDaysBack: Option<int>,
    forceFullRefresh: bool,
    startedAt: string,
    finishedAt: Option<string>,
    status: string,
    ingestedCount: int,
    dedupedCount: int,
    errorText: Option<string>
  )

  /** One row of `topics`. */
  datatype TopicRow = TopicRow(id: int, specialty: string, subcategory: string)

  /** The first position of `x` in `xs`. */
  function IndexOf<T(==)>(xs: seq<T>, x: T): (k: Option<nat>)
    ensures k.Some? ==> k.value < |xs| && xs[k.value] == x && forall j | 0 <= j < k.value :: xs[j] != x
    ensures k.None? ==> x !in xs
    decreases |xs|
  {
    if xs == [] then None
    else if xs[0] == x then Some(0)
    else
      match IndexOf(xs[1..], x)
      case Some(k) => Some(k + 1)
      case None => None
  }

  lemma IndexOfAppend<T>(xs: seq<T>, y: T, x: T)
    ensures IndexOf(xs + [y], x) == if x in xs then IndexOf(xs, x) else if x == y then Some(|xs|) else None
  {
    var k := IndexOf(xs + [y], x);
    var m := IndexOf(xs, x);
    if m.Some? {
      assert (xs + [y])[m.value] == x;
      assert k.value <= m.value;
      assert xs[k.value] == x;
    } else if k.Some? {
      assert k.value == |xs|;
    }
  }

  // ---------------------------------------------------------------- items

  predicate RowsOrdered(a: ItemRow, b: ItemRow) {
    a.id < b.id && a.fingerprint != b.fingerprint
  }

  /** Ids below the AUTOINCREMENT counter and ascending in rowid order; fingerprints `UNIQUE`. */
  predicate ItemsValid(rows: seq<ItemRow>, nextId: int) {
    1 <= nextId && (forall i | 0 <= i < |rows| :: 1 <= rows[i].id < nextId) && Pairwise(rows, RowsOrdered)
  }

  function Fingerprints(rows: seq<ItemRow>): (fps: seq<string>)
    ensures |fps| == |rows| && forall i | 0 <= i < |rows| :: fps[i] == rows[i].fingerprint
  {
    seq(|rows|, i requires 0 <= i < |rows| => rows[i].fingerprint)
  }

  /** `SELECT * FROM items WHERE fingerprint = ?` */
  function Lookup(rows: seq<ItemRow>, fp: string): Option<ItemRow> {
    match IndexOf(Fingerprints(rows), fp)
    case Some(k) => Some(rows[k])
    case None => None
  }

  /**
   * The row `upsert_item` writes: the record's fields with their defaults, the score as an
   * integer and the explanation list serialized, seen at `now`.
   */
  function Payload(item: Item, fp: string, id: int, createdAt: string, now: string): ItemRow {
    ItemRow(
      id, item.specialty, item.subcategory, item.modeName, item.source, item.title, item.url,
      item.publishedAt, item.updatedAt, item.pmid, item.doi, item.nctId, item.venue, item.authors,
      item.abstractOrText, item.score, Json.Dumps(item.scoreExplain), item.summaryText,
      item.citations, item.citationsSource, fp, createdAt, now)
  }

  /**
   * `INSERT ... ON CONFLICT(fingerprint) DO UPDATE`: a new fingerprint is appended with the
   * next id; a known one has every column but `id`, `fingerprint` and `created_at` replaced.
   */
  function Upserted(rows: seq<ItemRow>, nextId: int, item: Item, fp: string, now: string): seq<ItemRow> {
    match IndexOf(Fingerprints(rows), fp)
    case Some(k) => rows[k := Payload(item, fp, rows[k].id, rows[k].createdAt, now)]
    case None => rows + [Payload(item, fp, nextId, now, now)]
  }

  /**
   * After an upsert the fingerprint has exactly the row `Payload` describes, keeping the id
   * and creation time of an earlier row; every other fingerprint reads as before; the table
   * stays valid and grows only for a new fingerprint.
   */
  lemma UpsertSpec(rows: seq<ItemRow>, nextId: int, item: Item, fp: string, now: string)
    requires ItemsValid(rows, nextId)
    ensures var r := Upserted(rows, nextId, item, fp, now);
      var prior := Lookup(rows, fp);
      && Lookup(r, fp) == Some(if prior.Some? then Payload(item, fp, prior.value.id, prior.value.createdAt, now)
                               else Payload(item, fp, nextId, now, now))
      && (forall g | g != fp :: Lookup(r, g) == Lookup(rows, g))
      && ItemsValid(r, if prior.Some? then nextId else nextId + 1)
      && |r| == if prior.Some? then |rows| else |rows| + 1
  {
    var fps := Fingerprints(rows);
    var r := Upserted(rows, nextId, item, fp, now);
    match IndexOf(fps, fp)
    case Some(k) =>
      assert Fingerprints(r) == fps;
    case None =>
      assert Fingerprints(r) == fps + [fp];
      forall g ensures IndexOf(Fingerprints(r), g) == if g in fps then IndexOf(fps, g) else if g == fp then Some(|fps|) else None {
        IndexOfAppend(fps, fp, g);
      }
      forall i | 0 <= i < |rows| ensures rows[i].fingerprint != fp {
        assert fps[i] == rows[i].fingerprint;
      }
  }

  /** What an upsert stores can be read back: the integer score and, deserialized, the explanation. */
  lemma UpsertStoresScore(rows: seq<ItemRow>, nextId: int, item: Item, fp: string, now: string)
    requires ItemsValid(rows, nextId)
    ensures var row := Lookup(Upserted(rows, nextId, item, fp, now), fp);
      && row.Some? && row.value.score == item.score && row.value.fingerprint == fp
      && row.value.lastSeenAt == now
      && Json.Loads(row.value.scoreExplainJson) == Some(item.scoreExplain)
  {
    UpsertSpec(rows, nextId, item, fp, now);
    Json.LoadsDumps(item.scoreExplain);
  }

  /**
   * Upserting the same fingerprint twice leaves one row, with the id and creation time the
   * first upsert gave it and every other column from the second.
   */
  lemma UpsertTwice(rows: seq<ItemRow>, nextId: int, first: Item, second: Item, fp: string, t1: string, t2: string)
    requires ItemsValid(rows, nextId)
    ensures var once := Upserted(rows, nextId, first, fp, t1);
      var next1 := if Lookup(rows, fp).Some? then nextId else nextId + 1;
      var twice := Upserted(once, next1, second, fp, t2);
      && |twice| == |once|
      && Lookup(twice, fp) == Some(Payload(second, fp, Lookup(once, fp).value.id, Lookup(once, fp).value.createdAt, t2))
  {
    UpsertSpec(rows, nextId, first, fp, t1);
    var next1 := if Lookup(rows, fp).Some? then nextId else nextId + 1;
    UpsertSpec(Upserted(rows, nextId, first, fp, t1), next1, second, fp, t2);
  }

  predicate InScope(r: ItemRow, specialty: string, subcategory: string) {
    r.specialty == specialty && r.subcategory == subcategory
  }

  /** `DELETE FROM items WHERE specialty = ? AND subcategory = ?` */
  function OutOfScope(rows: seq<ItemRow>, specialty: string, subcategory: string): seq<ItemRow> {
    Filter(rows, OutsideScope(specialty, subcategory))
  }

  function OutsideScope(specialty: string, subcategory: string): ItemRow -> bool {
    (r: ItemRow) => !InScope(r, specialty, subcategory)
  }

  /** The ids `clear_scope_items` selects before deleting. */
  function ScopeIds(rows: seq<ItemRow>, specialty: string, subcategory: string): set<int> {
    set r | r in rows && InScope(r, specialty, subcategory) :: r.id
  }

  /** `DELETE FROM notes WHERE item_id IN (...)` */
  function NotesKept(notes: seq<NoteRow>, ids: set<int>): seq<NoteRow> {
    Filter(notes, NotOnItems(ids))
  }

  function NotOnItems(ids: set<int>): NoteRow -> bool {
    (n: NoteRow) => n.itemId !in ids
  }

  /**
   * Clearing a scope removes exactly its items, keeping every other row unchanged and in
   * order, and removes exactly the notes that point at a removed item.
   */
  lemma ClearScopeSpec(rows: seq<ItemRow>, notes: seq<NoteRow>, specialty: string, subcategory: string)
    ensures forall r | r in OutOfScope(rows, specialty, subcategory) :: r in rows && !InScope(r, specialty, subcategory)
    ensures forall r | r in rows && !InScope(r, specialty, subcategory) :: r in OutOfScope(rows, specialty, subcategory)
    ensures IsSubseq(OutOfScope(rows, specialty, subcategory), rows)
    ensures forall n | n in NotesKept(notes, ScopeIds(rows, specialty, subcategory)) ::
      n in notes && forall r | r in rows && InScope(r, specialty, subcategory) :: r.id != n.itemId
    ensures forall n | n in notes && (forall r | r in rows && InScope(r, specialty, subcategory) :: r.id != n.itemId) ::
      n in NotesKept(notes, ScopeIds(rows, specialty, subcategory))
  {
    FilterSpec(rows, OutsideScope(specialty, subcategory));
    FilterSpec(notes, NotOnItems(ScopeIds(rows, specialty, subcategory)));
  }

  lemma ClearScopeValid(rows: seq<ItemRow>, nextId: int, specialty: string, subcategory: string)
    requires ItemsValid(rows, nextId)
    ensures ItemsValid(OutOfScope(rows, specialty, subcategory), nextId)
  {
    var p := OutsideScope(specialty, subcategory);
    FilterSpec(rows, p);
    FilterPairwise(rows, p, RowsOrdered);
    var kept := Filter(rows, p);
    forall i | 0 <= i < |kept| ensures 1 <= kept[i].id < nextId {
      assert kept[i] in rows;
    }
  }

  // ---------------------------------------------------------------- ranking

  /** `ORDER BY [COALESCE(citations, 0) DESC,] score DESC, COALESCE(published_at, '') DESC`: `a` ranks no higher than `b`. */
  predicate RankLe(cited: bool, a: ItemRow, b: ItemRow) {
    var ca := if cited then a.citations.UnwrapOr(0) else 0;
    var cb := if cited then b.citations.UnwrapOr(0) else 0;
    ca < cb || (ca == cb && (a.score < b.score
      || (a.score == b.score && LexLe(OrEmpty(a.publishedAt), OrEmpty(b.publishedAt)))))
  }

  lemma RankLeTotal(cited: bool, a: ItemRow, b: ItemRow)
    ensures RankLe(cited, a, b) || RankLe(cited, b, a)
  {
    LexLeTotal(OrEmpty(a.publishedAt), OrEmpty(b.publishedAt));
  }

  lemma RankLeTrans(cited: bool, a: ItemRow, b: ItemRow, c: ItemRow)
    requires RankLe(cited, a, b) && RankLe(cited, b, c)
    ensures RankLe(cited, a, c)
  {
    if LexLe(OrEmpty(a.publishedAt), OrEmpty(b.publishedAt)) && LexLe(OrEmpty(b.publishedAt), OrEmpty(c.publishedAt)) {
      LexLeTrans(OrEmpty(a.publishedAt), OrEmpty(b.publishedAt), OrEmpty(c.publishedAt));
    }
  }

  /** Best first. */
  predicate RankedDesc(cited: bool, xs: seq<ItemRow>) {
    forall i, j | 0 <= i < j < |xs| :: RankLe(cited, xs[j], xs[i])
  }

  /** Where `x` goes in a best-first list: after every row that ranks strictly above it. */
  function InsertPos(cited: bool, x: ItemRow, xs: seq<ItemRow>): (k: nat)
    ensures k <= |xs|
    ensures forall i | 0 <= i < k :: !RankLe(cited, xs[i], x)
    ensures k < |xs| ==> RankLe(cited, xs[k], x)
    decreases |xs|
  {
    if xs == [] || RankLe(cited, xs[0], x) then 0 else 1 + InsertPos(cited, x, xs[1..])
  }

  /** The rows best first (an insertion sort; SQLite leaves the order of ties open). */
  function SortRanked(cited: bool, xs: seq<ItemRow>): seq<ItemRow>
    decreases |xs|
  {
    if xs == [] then []
    else
      var rest := SortRanked(cited, xs[1..]);
      var k := InsertPos(cited, xs[0], rest);
      rest[..k] + [xs[0]] + rest[k..]
  }

  lemma InsertRankedDesc(cited: bool, x: ItemRow, rest: seq<ItemRow>)
    requires RankedDesc(cited, rest)
    ensures var k := InsertPos(cited, x, rest); RankedDesc(cited, rest[..k] + [x] + rest[k..])
  {
    var k := InsertPos(cited, x, rest);
    var r := rest[..k] + [x] + rest[k..];
    forall i, j | 0 <= i < j < |r| ensures RankLe(cited, r[j], r[i]) {
      if j < k {
        assert r[i] == rest[i] && r[j] == rest[j];
      } else if j == k {
        assert r[i] == rest[i];
        RankLeTotal(cited, rest[i], x);
      } else if i == k {
        assert r[j] == rest[j - 1];
        if j - 1 > k {
          RankLeTrans(cited, rest[j - 1], rest[k], x);
        }
      } else if i < k {
        assert r[i] == rest[i] && r[j] == rest[j - 1];
      } else {
        assert r[i] == rest[i - 1] && r[j] == rest[j - 1];
      }
    }
  }

  lemma InsertMultiset(x: ItemRow, rest: seq<ItemRow>, k: nat)
    requires k <= |rest|
    ensures multiset(rest[..k] + [x] + rest[k..]) == multiset(rest) + multiset{x}
  {
    assert rest == rest[..k] + rest[k..];
  }

  /** The sort orders best first and neither adds nor drops a row. */
  lemma {:induction false} SortRankedSpec(cited: bool, xs: seq<ItemRow>)
    ensures RankedDesc(cited, SortRanked(cited, xs))
    ensures multiset(SortRanked(cited, xs)) == multiset(xs)
    decreases |xs|
  {
    if xs != [] {
      var rest := SortRanked(cited, xs[1..]);
      SortRankedSpec(cited, xs[1..]);
      InsertRankedDesc(cited, xs[0], rest);
      InsertMultiset(xs[0], rest, InsertPos(cited, xs[0], rest));
      assert xs == [xs[0]] + xs[1..];
    }
  }

  /**
   * A prefix of a best-first list holds each row as often as the list does, and a row of
   * the list left out of it ranks no higher than any row kept.
   */
  lemma PrefixTop(cited: bool, sorted: seq<ItemRow>, limit: int)
    requires RankedDesc(cited, sorted)
    ensures var rows := if limit < 0 then sorted else Take(sorted, limit);
      && RankedDesc(cited, rows)
      && multiset(rows) <= multiset(sorted)
      && (limit >= 0 ==> |rows| <= limit)
      && forall r | r in sorted && r !in rows :: 0 <= limit == |rows| && forall q | q in rows :: RankLe(cited, r, q)
  {
    var rows := if limit < 0 then sorted else Take(sorted, limit);
    assert sorted == rows + sorted[|rows|..];
    forall r | r in sorted && r !in rows
      ensures 0 <= limit == |rows| && forall q | q in rows :: RankLe(cited, r, q)
    {
      var i :| 0 <= i < |sorted| && sorted[i] == r;
      forall q | q in rows ensures RankLe(cited, r, q) {
        var j :| 0 <= j < |rows| && rows[j] == q;
        assert sorted[j] == q;
      }
    }
  }

  /** Filtering the table lists each row at most once, and exactly the rows that pass. */
  lemma ListedOnce(rows: seq<ItemRow>, nextId: int, p: ItemRow -> bool)
    requires ItemsValid(rows, nextId)
    ensures forall r :: multiset(Filter(rows, p))[r] <= 1
    ensures forall r | r in Filter(rows, p) :: r in rows && p(r)
    ensures forall r | r in rows && p(r) :: r in Filter(rows, p)
  {
    var listed := Filter(rows, p);
    FilterSpec(rows, p);
    FilterPairwise(rows, p, RowsOrdered);
    forall i, j | 0 <= i < j < |listed| ensures listed[i] != listed[j] {
      assert RowsOrdered(listed[i], listed[j]);
    }
    NoRepeatsMultiset(listed);
  }

  /** `get_ranked_items`: the listed rows, sorted best first, cut at the limit unless it is negative. */
  function RankedItems(rows: seq<ItemRow>, specialty: string, subcategory: string, mode: string, includeTrials: bool, limit: int): seq<ItemRow> {
    var sorted := SortRanked(mode == "cited", Filter(rows, ListedIn(specialty, subcategory, includeTrials)));
    if limit < 0 then sorted else Take(sorted, limit)
  }

  /**
   * The ranked rows belong to the scope (without `clinicaltrials` rows when trials are
   * excluded), each once, best first, at most `limit` of them; a listed row is left out only
   * when the limit is reached, and then it ranks no higher than any row returned.
   */
  lemma RankedItemsSpec(rows: seq<ItemRow>, nextId: int, specialty: string, subcategory: string, mode: string, includeTrials: bool, limit: int)
    requires ItemsValid(rows, nextId)
    ensures var out := RankedItems(rows, specialty, subcategory, mode, includeTrials, limit);
      && RankedDesc(mode == "cited", out)
      && (forall r :: multiset(out)[r] <= 1)
      && (limit >= 0 ==> |out| <= limit)
      && (forall r | r in out :: r in rows && Listed(r, specialty, subcategory, includeTrials))
      && (forall r | r in rows && Listed(r, specialty, subcategory, includeTrials) && r !in out ::
            0 <= limit == |out| && forall q | q in out :: RankLe(mode == "cited", r, q))
  {
    var p := ListedIn(specialty, subcategory, includeTrials);
    RankedRows(rows, nextId, p, mode == "cited", limit);
    forall r | r in RankedItems(rows, specialty, subcategory, mode, includeTrials, limit)
      ensures Listed(r, specialty, subcategory, includeTrials)
    {
      assert p(r);
    }
  }

  /** The filtered rows, sorted best first and cut at the limit. */
  lemma RankedRows(rows: seq<ItemRow>, nextId: int, p: ItemRow -> bool, cited: bool, limit: int)
    requires ItemsValid(rows, nextId)
    ensures var sorted := SortRanked(cited, Filter(rows, p));
      var out := if limit < 0 then sorted else Take(sorted, limit);
      && RankedDesc(cited, out)
      && (forall r :: multiset(out)[r] <= 1)
      && (limit >= 0 ==> |out| <= limit)
      && (forall r | r in out :: r in rows && p(r))
      && (forall r | r in rows && p(r) && r !in out :: 0 <= limit == |out| && forall q | q in out :: RankLe(cited, r, q))
  {
    var listed := Filter(rows, p);
    var sorted := SortRanked(cited, listed);
    var out := if limit < 0 then sorted else Take(sorted, limit);
    ListedOnce(rows, nextId, p);
    SortRankedSpec(cited, listed);
    PrefixTop(cited, sorted, limit);
    forall r ensures multiset(out)[r] <= 1 {
      assert multiset(out)[r] <= multiset(sorted)[r];
    }
    forall r | r in out ensures r in rows && p(r) {
      assert multiset(out)[r] > 0;
      assert r in multiset(listed);
    }
    forall r | r in rows && p(r) && r !in out
      ensures 0 <= limit == |out| && forall q | q in out :: RankLe(cited, r, q)
    {
      assert r in multiset(sorted);
    }
  }

  /** The rows `get_ranked_items` may return: the scope, without trials when they are excluded. */
  predicate Listed(r: ItemRow, specialty: string, subcategory: string, includeTrials: bool) {
    InScope(r, specialty, subcategory) && (includeTrials || r.source != "clinicaltrials")
  }

  function ListedIn(specialty: string, subcategory: string, includeTrials: bool): ItemRow -> bool {
    (r: ItemRow) => Listed(r, specialty, subcategory, includeTrials)
  }

  // ---------------------------------------------------------------- notes

  predicate NotesOrdered(a: NoteRow, b: NoteRow) {
    a.id < b.id && a.itemId != b.itemId
  }

  /** `upsert_note` keeps one note per item. */
  predicate NotesValid(notes: seq<NoteRow>, nextId: int) {
    1 <= nextId && (forall i | 0 <= i < |notes| :: 1 <= notes[i].id < nextId) && Pairwise(notes, NotesOrdered)
  }

  function NoteItems(notes: seq<NoteRow>): (ids: seq<int>)
    ensures |ids| == |notes| && forall i | 0 <= i < |notes| :: ids[i] == notes[i].itemId
  {
    seq(|notes|, i requires 0 <= i < |notes| => notes[i].itemId)
  }

  /** `SELECT * FROM notes WHERE item_id = ?` */
  function NoteOf(notes: seq<NoteRow>, itemId: int): Option<NoteRow> {
    match IndexOf(NoteItems(notes), itemId)
    case Some(k) => Some(notes[k])
    case None => None
  }

  /** `upsert_note`: update the item's note in place, or insert one with the next id. */
  function NoteUpserted(notes: seq<NoteRow>, nextId: int, itemId: int, starred: bool, text: string, now: string): seq<NoteRow> {
    match IndexOf(NoteItems(notes), itemId)
    case Some(k) => notes[k := notes[k].(starred := starred, noteText := text, updatedAt := now)]
    case None => notes + [NoteRow(nextId, itemId, starred, text, now, now)]
  }

  /** After `upsert_note` the item's note carries the new flag and text; other items' notes read as before. */
  lemma NoteUpsertSpec(notes: seq<NoteRow>, nextId: int, itemId: int, starred: bool, text: string, now: string)
    requires NotesValid(notes, nextId)
    ensures var r := NoteUpserted(notes, nextId, itemId, starred, text, now);
      var prior := NoteOf(notes, itemId);
      && NoteOf(r, itemId) == Some(if prior.Some? then prior.value.(starred := starred, noteText := text, updatedAt := now)
                                   else NoteRow(nextId, itemId, starred, text, now, now))
      && (forall other | other != itemId :: NoteOf(r, other) == NoteOf(notes, other))
      && NotesValid(r, if prior.Some? then nextId else nextId + 1)
  {
    var ids := NoteItems(notes);
    var r := NoteUpserted(notes, nextId, itemId, starred, text, now);
    match IndexOf(ids, itemId)
    case Some(k) =>
      assert NoteItems(r) == ids;
    case None =>
      assert NoteItems(r) == ids + [itemId];
      forall g ensures IndexOf(NoteItems(r), g) == if g in ids then IndexOf(ids, g) else if g == itemId then Some(|ids|) else None {
        IndexOfAppend(ids, itemId, g);
      }
      forall i | 0 <= i < |notes| ensures notes[i].itemId != itemId {
        assert ids[i] == notes[i].itemId;
      }
  }

  lemma NotesKeptValid(notes: seq<NoteRow>, nextId: int, ids: set<int>)
    requires NotesValid(notes, nextId)
    ensures NotesValid(NotesKept(notes, ids), nextId)
  {
    var p := NotOnItems(ids);
    FilterSpec(notes, p);
    FilterPairwise(notes, p, NotesOrdered);
    var kept := Filter(notes, p);
    forall i | 0 <= i < |kept| ensures 1 <= kept[i].id < nextId {
      assert kept[i] in notes;
    }
  }

  // ---------------------------------------------------------------- citation cache

  /** Keys are the lower-cased DOI the row holds. */
  predicate CacheValid(cache: map<string, CitationRow>) {
    forall d | d in cache :: cache[d].doi == d && Lower(d) == d
  }

  /** `get_cached_citation` */
  function CacheGet(cache: map<string, CitationRow>, doi: string): Option<CitationRow> {
    if Lower(doi) in cache then Some(cache[Lower(doi)]) else None
  }

  /** `set_cached_citation`: insert, or overwrite the count and fetch time. */
  function CacheSet(cache: map<string, CitationRow>, doi: string, count: Option<int>, now: string): map<string, CitationRow> {
    cache[Lower(doi) := CitationRow(Lower(doi), count, now)]
  }

  lemma LowerTwice(s: string)
    ensures Lower(Lower(s)) == Lower(s)
  {
  }

  /**
   * After setting a DOI, every spelling of it that lower-cases the same reads the new count
   * and time; other DOIs read as before; the keys stay lower-cased.
   */
  lemma CacheSetGet(cache: map<string, CitationRow>, doi: string, count: Option<int>, now: string, query: string)
    requires CacheValid(cache)
    ensures CacheValid(CacheSet(cache, doi, count, now))
    ensures CacheGet(CacheSet(cache, doi, count, now), query)
      == if Lower(query) == Lower(doi) then Some(CitationRow(Lower(doi), count, now)) else CacheGet(cache, query)
  {
    LowerTwice(doi);
  }

  // ---------------------------------------------------------------- run ledger

  predicate RunsOrdered(a: RunRow, b: RunRow) {
    a.id < b.id
  }

  predicate RunsValid(runs: seq<RunRow>, nextId: int) {
    1 <= nextId && (forall i | 0 <= i < |runs| :: 1 <= runs[i].id < nextId) && Pairwise(runs, RunsOrdered)
  }

  /** The row `create_run` inserts. */
  function NewRun(id: int, specialty: string, subcategory: string, modeName: Option<string>, sourcesKey: Option<string>,
                  resolvedDaysBack: Option<int>, forceFullRefresh: bool, now: string): RunRow {
    RunRow(id, specialty, subcategory, modeName, sourcesKey, resolvedDaysBack, forceFullRefresh, now, None, "running", 0, 0, None)
  }

  /** `UPDATE run_history SET finished_at, status, ingested_count, deduped_count, error_text WHERE id = ?` */
  function Finished(runs: seq<RunRow>, runId: int, status: string, ingested: int, deduped: int,
                    errorText: Option<string>, now: string): seq<RunRow> {
    seq(|runs|, i requires 0 <= i < |runs| =>
      if runs[i].id == runId then
        runs[i].(finishedAt := Some(now), status := status, ingestedCount := ingested, dedupedCount := deduped, errorText := errorText)
      else runs[i])
  }

  /** `status = 'success'` in the scope, with the mode and sources key when these are given. */
  predicate Qualifies(r: RunRow, specialty: string, subcategory: string, modeName: Option<string>, sourcesKey: Option<string>) {
    r.specialty == specialty && r.subcategory == subcategory && r.status == "success"
    && (modeName.None? || r.modeName == modeName) && (sourcesKey.None? || r.sourcesKey == sourcesKey)
  }

  /** `COALESCE(finished_at, started_at)` */
  function RefTime(r: RunRow): string {
    if r.finishedAt.Some? then r.finishedAt.value else r.startedAt
  }

  /** `ORDER BY COALESCE(finished_at, started_at) DESC LIMIT 1` over the qualifying rows. */
  function LatestSuccess(runs: seq<RunRow>, specialty: string, subcategory: string, modeName: Option<string>, sourcesKey: Option<string>): Option<RunRow>
    decreases |runs|
  {
    if runs == [] then None
    else
      var rest := LatestSuccess(runs[1..], specialty, subcategory, modeName, sourcesKey);
      if !Qualifies(runs[0], specialty, subcategory, modeName, sourcesKey) then rest
      else if rest.Some? && LexLe(RefTime(runs[0]), RefTime(rest.value)) then rest
      else Some(runs[0])
  }

  /**
   * The last success is a qualifying row no qualifying row is later than; there is none
   * exactly when no row qualifies.
   */
  lemma {:induction false} LatestSuccessSpec(runs: seq<RunRow>, specialty: string, subcategory: string, modeName: Option<string>, sourcesKey: Option<string>)
    ensures var r := LatestSuccess(runs, specialty, subcategory, modeName, sourcesKey);
      && (r.Some? ==> (r.value in runs && Qualifies(r.value, specialty, subcategory, modeName, sourcesKey)
            && forall q | q in runs && Qualifies(q, specialty, subcategory, modeName, sourcesKey) :: LexLe(RefTime(q), RefTime(r.value))))
      && (r.None? ==> forall q | q in runs :: !Qualifies(q, specialty, subcategory, modeName, sourcesKey))
    decreases |runs|
  {
    if runs != [] {
      var rest := LatestSuccess(runs[1..], specialty, subcategory, modeName, sourcesKey);
      LatestSuccessSpec(runs[1..], specialty, subcategory, modeName, sourcesKey);
      assert runs == [runs[0]] + runs[1..];
      if Qualifies(runs[0], specialty, subcategory, modeName, sourcesKey) {
        var t := RefTime(runs[0]);
        LexLeTotal(t, t);
        if rest.Some? {
          LexLeTotal(t, RefTime(rest.value));
          if !LexLe(t, RefTime(rest.value)) {
            forall q | q in runs[1..] && Qualifies(q, specialty, subcategory, modeName, sourcesKey) ensures LexLe(RefTime(q), t) {
              LexLeTrans(RefTime(q), RefTime(rest.value), t);
            }
          }
        }
      }
    }
  }

  /**
   * Finishing a run as a success makes the ledger report a last success for its scope, mode
   * and sources key; finishing touches no other run and no other column.
   */
  lemma FinishSuccessSpec(runs: seq<RunRow>, k: nat, ingested: int, deduped: int, now: string)
    requires k < |runs| && Pairwise(runs, RunsOrdered)
    ensures var f := Finished(runs, runs[k].id, "success", ingested, deduped, None, now);
      && |f| == |runs|
      && f[k] == runs[k].(finishedAt := Some(now), status := "success", ingestedCount := ingested, dedupedCount := deduped, errorText := None)
      && (forall i | 0 <= i < |runs| && i != k :: f[i] == runs[i])
      && LatestSuccess(f, runs[k].specialty, runs[k].subcategory, runs[k].modeName, runs[k].sourcesKey).Some?
  {
    var f := Finished(runs, runs[k].id, "success", ingested, deduped, None, now);
    forall i | 0 <= i < |runs| && i != k ensures f[i] == runs[i] {
      if i < k { assert RunsOrdered(runs[i], runs[k]); } else { assert RunsOrdered(runs[k], runs[i]); }
    }
    assert f[k] in f;
    LatestSuccessSpec(f, runs[k].specialty, runs[k].subcategory, runs[k].modeName, runs[k].sourcesKey);
  }

  // ---------------------------------------------------------------- the store

  class Store {
    var items: seq<ItemRow>
    var notes: seq<NoteRow>
    var citationCache: map<string, CitationRow>
    var runs: seq<RunRow>
    var topics: seq<TopicRow>
    var nextItemId: int
    var nextNoteId: int
    var nextRunId: int

    ghost predicate Valid()
      reads this
    {
      ItemsValid(items, nextItemId) && NotesValid(notes, nextNoteId)
      && RunsValid(runs, nextRunId) && CacheValid(citationCache)
    }

    /** A fresh database after `init_db`. */
    constructor ()
      ensures Valid()
      ensures items == [] && notes == [] && citationCache == map[] && runs == [] && topics == []
    {
      items, notes, citationCache, runs, topics := [], [], map[], [], [];
      nextItemId, nextNoteId, nextRunId := 1, 1, 1;
    }

    /**
     * `upsert_item`. A record without a fingerprint violates `NOT NULL` and changes nothing
     * (the source raises); otherwise the returned id is the row's.
     */
    method UpsertItem(item: Item, now: string) returns (id: Option<int>)
      requires Valid()
      modifies this
      ensures Valid()
      ensures item.fingerprint.None? ==> id.None? && items == old(items) && nextItemId == old(nextItemId)
      ensures item.fingerprint.Some? ==>
        && items == Upserted(old(items), old(nextItemId), item, item.fingerprint.value, now)
        && nextItemId == (if Lookup(old(items), item.fingerprint.value).Some? then old(nextItemId) else old(nextItemId) + 1)
        && Lookup(items, item.fingerprint.value).Some?
        && id == Some(Lookup(items, item.fingerprint.value).value.id)
      ensures notes == old(notes) && citationCache == old(citationCache) && runs == old(runs) && topics == old(topics)
      ensures nextNoteId == old(nextNoteId) && nextRunId == old(nextRunId)
    {
      if item.fingerprint.None? {
        return None;
      }
      var fp := item.fingerprint.value;
      UpsertSpec(items, nextItemId, item, fp, now);
      var present := Lookup(items, fp).Some?;
      items := Upserted(items, nextItemId, item, fp, now);
      if !present {
        nextItemId := nextItemId + 1;
      }
      id := Some(Lookup(items, fp).value.id);
    }

    /** `clear_scope_items`: the scope's items and the notes that point at them go. */
    method ClearScopeItems(specialty: string, subcategory: string)
      requires Valid()
      modifies this
      ensures Valid()
      ensures items == OutOfScope(old(items), specialty, subcategory)
      ensures notes == NotesKept(old(notes), ScopeIds(old(items), specialty, subcategory))
      ensures citationCache == old(citationCache) && runs == old(runs) && topics == old(topics)
      ensures nextItemId == old(nextItemId) && nextNoteId == old(nextNoteId) && nextRunId == old(nextRunId)
    {
      var ids := ScopeIds(items, specialty, subcategory);
      NotesKeptValid(notes, nextNoteId, ids);
      ClearScopeValid(items, nextItemId, specialty, subcategory);
      notes := NotesKept(notes, ids);
      items := OutOfScope(items, specialty, subcategory);
    }

    /** `clear_all_local_cache`: every table emptied; AUTOINCREMENT counters are kept. */
    method ClearAllLocalCache()
      requires Valid()
      modifies this
      ensures Valid()
      ensures items == [] && notes == [] && citationCache == map[] && runs == [] && topics == []
      ensures nextItemId == old(nextItemId) && nextNoteId == old(nextNoteId) && nextRunId == old(nextRunId)
    {
      items, notes, citationCache, runs, topics := [], [], map[], [], [];
    }

    /**
     * `get_ranked_items`: rows of the scope (without `clinicaltrials` rows when trials are
     * excluded), each once, best first, at most `limit` of them (a negative limit is no
     * limit in SQLite); a listed row is left out only when the limit is reached, and then
     * it ranks no higher than any row returned.
     */
    method GetRankedItems(specialty: string, subcategory: string, mode: string, includeTrials: bool, limit: int)
      returns (rows: seq<ItemRow>)
      requires Valid()
      ensures forall r | r in rows :: r in items && Listed(r, specialty, subcategory, includeTrials)
      ensures RankedDesc(mode == "cited", rows)
      ensures forall r :: multiset(rows)[r] <= 1
      ensures limit >= 0 ==> |rows| <= limit
      ensures forall r | r in items && Listed(r, specialty, subcategory, includeTrials) && r !in rows ::
        0 <= limit == |rows| && forall q | q in rows :: RankLe(mode == "cited", r, q)
    {
      rows := RankedItems(items, specialty, subcategory, mode, includeTrials, limit);
      RankedItemsSpec(items, nextItemId, specialty, subcategory, mode, includeTrials, limit);
    }

    /** `upsert_note` */
    method UpsertNote(itemId: int, starred: bool, text: string, now: string)
      requires Valid()
      modifies this
      ensures Valid()
      ensures notes == NoteUpserted(old(notes), old(nextNoteId), itemId, starred, text, now)
      ensures nextNoteId == if NoteOf(old(notes), itemId).Some? then old(nextNoteId) else old(nextNoteId) + 1
      ensures items == old(items) && citationCache == old(citationCache) && runs == old(runs) && topics == old(topics)
      ensures nextItemId == old(nextItemId) && nextRunId == old(nextRunId)
    {
      NoteUpsertSpec(notes, nextNoteId, itemId, starred, text, now);
      var present := NoteOf(notes, itemId).Some?;
      notes := NoteUpserted(notes, nextNoteId, itemId, starred, text, now);
      if !present {
        nextNoteId := nextNoteId + 1;
      }
    }

    /** `get_note` */
    method GetNote(itemId: int) returns (note: Option<NoteRow>)
      requires Valid()
      ensures note.Some? ==> note.value in notes && note.value.itemId == itemId
      ensures note.None? ==> forall n | n in notes :: n.itemId != itemId
    {
      note := NoteOf(notes, itemId);
      if note.None? {
        forall n | n in notes ensures n.itemId != itemId {
          var i :| 0 <= i < |notes| && notes[i] == n;
          assert NoteItems(notes)[i] == n.itemId;
        }
      }
    }

    /** `get_cached_citation`: the row stored under the lower-cased DOI. */
    method GetCachedCitation(doi: string) returns (row: Option<CitationRow>)
      requires Valid()
      ensures row.Some? ==> Lower(doi) in citationCache && row.value == citationCache[Lower(doi)] && row.value.doi == Lower(doi)
      ensures row.None? ==> Lower(doi) !in citationCache
    {
      row := CacheGet(citationCache, doi);
    }

    /** `set_cached_citation` */
    method SetCachedCitation(doi: string, count: Option<int>, now: string)
      requires Valid()
      modifies this
      ensures Valid()
      ensures citationCache == CacheSet(old(citationCache), doi, count, now)
      ensures items == old(items) && notes == old(notes) && runs == old(runs) && topics == old(topics)
      ensures nextItemId == old(nextItemId) && nextNoteId == old(nextNoteId) && nextRunId == old(nextRunId)
    {
      CacheSetGet(citationCache, doi, count, now, doi);
      citationCache := CacheSet(citationCache, doi, count, now);
    }

    /** `create_run`: a `running` row with a fresh id, which is returned. */
    method CreateRun(specialty: string, subcategory: string, modeName: Option<string>, sourcesKey: Option<string>,
                     resolvedDaysBack: Option<int>, forceFullRefresh: bool, now: string) returns (runId: int)
      requires Valid()
      modifies this
      ensures Valid()
      ensures runId == old(nextRunId) && nextRunId == old(nextRunId) + 1
      ensures forall i | 0 <= i < |old(runs)| :: old(runs)[i].id < runId
      ensures runs == old(runs) + [NewRun(runId, specialty, subcategory, modeName, sourcesKey, resolvedDaysBack, forceFullRefresh, now)]
      ensures items == old(items) && notes == old(notes) && citationCache == old(citationCache) && topics == old(topics)
      ensures nextItemId == old(nextItemId) && nextNoteId == old(nextNoteId)
    {
      runId := nextRunId;
      runs := runs + [NewRun(runId, specialty, subcategory, modeName, sourcesKey, resolvedDaysBack, forceFullRefresh, now)];
      nextRunId := nextRunId + 1;
    }

    /**
     * `get_last_successful_run`: a qualifying row that no qualifying row is later than, or
     * None when no row qualifies.
     */
    method GetLastSuccessfulRun(specialty: string, subcategory: string, modeName: Option<string>, sourcesKey: Option<string>)
      returns (run: Option<RunRow>)
      requires Valid()
      ensures run == LatestSuccess(runs, specialty, subcategory, modeName, sourcesKey)
      ensures run.Some? ==> run.value in runs && Qualifies(run.value, specialty, subcategory, modeName, sourcesKey)
      ensures run.Some? ==> forall q | q in runs && Qualifies(q, specialty, subcategory, modeName, sourcesKey) :: LexLe(RefTime(q), RefTime(run.value))
      ensures run.None? ==> forall q | q in runs :: !Qualifies(q, specialty, subcategory, modeName, sourcesKey)
    {
      run := LatestSuccess(runs, specialty, subcategory, modeName, sourcesKey);
      LatestSuccessSpec(runs, specialty, subcategory, modeName, sourcesKey);
    }

    /** `finish_run`: only the row with that id changes, and only in the five columns set. */
    method FinishRun(runId: int, status: string, ingested: int, deduped: int, errorText: Option<string>, now: string)
      requires Valid()
      modifies this
      ensures Valid()
      ensures runs == Finished(old(runs), runId, status, ingested, deduped, errorText, now)
      ensures items == old(items) && notes == old(notes) && citationCache == old(citationCache) && topics == old(topics)
      ensures nextItemId == old(nextItemId) && nextNoteId == old(nextNoteId) && nextRunId == old(nextRunId)
    {
      runs := Finished(runs, runId, status, ingested, deduped, errorText, now);
    }
  }
}
