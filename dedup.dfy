/**
 * Record identity and de-duplication. A record's fingerprint is its DOI, PMID or
 * NCT identifier when it has one, and otherwise a digest of its normalised title
 * and publication year; de-duplication keeps the first record of each fingerprint.
 */
module Dedup {
  import opened Wrappers
  import opened Strings
  import opened Records

  // ---------------------------------------------------------------- title and year

  /** `[^a-z0-9\s]` becomes a space. */
  function MaskPunctuation(s: string): string {
    seq(|s|, i requires 0 <= i < |s| => if IsLowerAlnum(s[i]) || IsSpace(s[i]) then s[i] else ' ')
  }

  /** `normalize_title`: lower-case letters, digits and single spaces only. */
  function NormalizeTitle(title: string): (r: string)
    ensures forall i | 0 <= i < |r| :: IsLowerAlnum(r[i]) || r[i] == ' '
    ensures SingleSpaced(r)
  {
    var m := MaskPunctuation(Strip(Lower(title)));
    CollapseKeepsAlphabet(m);
    CollapseSpaces(m)
  }

  /** Collapsing whitespace in text of letters, digits and whitespace leaves letters, digits and ' '. */
  lemma {:induction false} CollapseKeepsAlphabet(s: string)
    requires forall i | 0 <= i < |s| :: IsLowerAlnum(s[i]) || IsSpace(s[i])
    ensures forall i | 0 <= i < |CollapseSpaces(s)| :: IsLowerAlnum(CollapseSpaces(s)[i]) || CollapseSpaces(s)[i] == ' '
    decreases |s|
  {
    if s != [] {
      var t := if IsSpace(s[0]) then LStrip(s) else s[1..];
      assert forall i | 0 <= i < |t| :: t[i] == s[i + |s| - |t|];
      CollapseKeepsAlphabet(t);
    }
  }

  /** A year `19dd` or `20dd` starts at `i`. */
  predicate YearAt(s: string, i: nat) {
    i + 4 <= |s| && (s[i..i + 2] == "19" || s[i..i + 2] == "20") && IsDigit(s[i + 2]) && IsDigit(s[i + 3])
  }

  /** Position of the first year at or after `from`. */
  function FirstYear(s: string, from: nat): (k: Option<nat>)
    ensures k.Some? ==> from <= k.value && YearAt(s, k.value)
    ensures forall j | from <= j && (k.None? || j < k.value) :: !YearAt(s, j)
    decreases |s| - from
  {
    if from + 4 > |s| then None
    else if YearAt(s, from) then Some(from)
    else FirstYear(s, from + 1)
  }

  /** `year_bucket`: the first four-digit year of the 1900s or 2000s, or "unknown". */
  function YearBucket(date: Option<string>): (r: string)
    ensures r == "unknown" <==> !Truthy(date) || forall j :: !YearAt(date.value, j)
    ensures r != "unknown" ==> exists i | 0 <= i :: YearAt(date.value, i) && r == date.value[i..i + 4]
  {
    if !Truthy(date) then "unknown"
    else match FirstYear(date.value, 0)
      case None => "unknown"
      case Some(i) => date.value[i..i + 4]
  }

  // ---------------------------------------------------------------- fingerprints

  /** `(value or "").strip().lower()` */
  function Identifier(value: Option<string>): string {
    Lower(Strip(OrEmpty(value)))
  }

  /**
   * `fingerprint_item`. `sha1Hex` stands for the hexadecimal SHA-1 digest of the
   * UTF-8 bytes of its argument.
   */
  function FingerprintItem(item: Item, sha1Hex: string -> string): string {
    if Identifier(item.doi) != "" then "doi:" + Identifier(item.doi)
    else if Identifier(item.pmid) != "" then "pmid:" + Identifier(item.pmid)
    else if Identifier(item.nctId) != "" then "nct_id:" + Identifier(item.nctId)
    else
      var y := YearBucket(if Truthy(item.publishedAt) then item.publishedAt else item.updatedAt);
      "titleyear:" + Take(sha1Hex("title:" + NormalizeTitle(item.title) + "|year:" + y), 16)
  }

  /**
   * Which key a fingerprint was built from: the identifiers in order DOI, PMID, NCT, then
   * the first 16 characters of the digest of the normalised title and the year bucket of
   * the publication date, or of the update date when there is none.
   */
  lemma FingerprintPriority(item: Item, sha1Hex: string -> string)
    ensures var r := FingerprintItem(item, sha1Hex);
      && (Identifier(item.doi) != "" ==> r == "doi:" + Identifier(item.doi))
      && (Identifier(item.doi) == "" && Identifier(item.pmid) != "" ==> r == "pmid:" + Identifier(item.pmid))
      && (Identifier(item.doi) == "" && Identifier(item.pmid) == "" && Identifier(item.nctId) != ""
          ==> r == "nct_id:" + Identifier(item.nctId))
      && (Identifier(item.doi) == "" && Identifier(item.pmid) == "" && Identifier(item.nctId) == ""
          ==> r[..10] == "titleyear:" && |r| <= 26
              && r == "titleyear:" + Take(sha1Hex("title:" + NormalizeTitle(item.title) + "|year:"
                   + YearBucket(if Truthy(item.publishedAt) then item.publishedAt else item.updatedAt)), 16))
  {
  }

  /** Two records with the same DOI up to case and surrounding whitespace share a fingerprint. */
  lemma SameDoiSameFingerprint(a: Item, b: Item, sha1Hex: string -> string)
    requires Identifier(a.doi) != "" && Identifier(a.doi) == Identifier(b.doi)
    ensures FingerprintItem(a, sha1Hex) == FingerprintItem(b, sha1Hex)
  {
  }

  /**
   * The text fed to the digest determines the normalised title and the year bucket:
   * a title holds no '|', so the separator cannot move. Records without identifiers
   * therefore share a digest input exactly when they share both.
   */
  lemma DigestInputInjective(ta: string, ya: string, tb: string, yb: string)
    requires Lacks(ta, '|') && Lacks(tb, '|')
    ensures "title:" + ta + "|year:" + ya == "title:" + tb + "|year:" + yb <==> ta == tb && ya == yb
  {
    var A, B := "title:" + ta, "title:" + tb;
    var sa, sb := A + ("|year:" + ya), B + ("|year:" + yb);
    assert "title:" + ta + "|year:" + ya == sa;
    assert "title:" + tb + "|year:" + yb == sb;
    if sa == sb {
      assert sa[|A|] == '|' && sb[|B|] == '|';
      assert |A| == |B|;
      assert ta == sa[6..|A|] == sb[6..|B|] == tb;
      assert ya == sa[|A| + 6..] == sb[|B| + 6..] == yb;
    }
  }

  lemma NormalizedTitleLacksBar(title: string)
    ensures Lacks(NormalizeTitle(title), '|')
  {
  }

  lemma FingerprintNonEmpty(item: Item, sha1Hex: string -> string)
    ensures FingerprintItem(item, sha1Hex) != ""
  {
  }

  // ---------------------------------------------------------------- de-duplication

  /** `item.get("fingerprint") or fingerprint_item(item)` */
  function Fp(item: Item, sha1Hex: string -> string): (r: string)
    ensures r != ""
  {
    if Truthy(item.fingerprint) then item.fingerprint.value
    else
      FingerprintNonEmpty(item, sha1Hex);
      FingerprintItem(item, sha1Hex)
  }

  /** The record with its fingerprint written in. */
  function Stamp(item: Item, sha1Hex: string -> string): Item {
    item.(fingerprint := Some(Fp(item, sha1Hex)))
  }

  /** The records of `items` whose fingerprint is new, first occurrence kept, after those in `seen`. */
  function DedupFrom(items: seq<Item>, seen: set<string>, sha1Hex: string -> string): seq<Item>
    decreases |items|
  {
    if items == [] then []
    else if Fp(items[0], sha1Hex) in seen then DedupFrom(items[1..], seen, sha1Hex)
    else [Stamp(items[0], sha1Hex)] + DedupFrom(items[1..], seen + {Fp(items[0], sha1Hex)}, sha1Hex)
  }

  /** `deduplicate` */
  method Deduplicate(items: seq<Item>, sha1Hex: string -> string) returns (result: seq<Item>)
    ensures result == DedupFrom(items, {}, sha1Hex)
  {
    var seen: set<string> := {};
    result := [];
    var i := 0;
    while i < |items|
      invariant 0 <= i <= |items|
      invariant result + DedupFrom(items[i..], seen, sha1Hex) == DedupFrom(items, {}, sha1Hex)
    {
      var fp := Fp(items[i], sha1Hex);
      assert items[i..][0] == items[i] && items[i..][1..] == items[i + 1..];
      if fp !in seen {
        assert DedupFrom(items[i..], seen, sha1Hex)
          == [Stamp(items[i], sha1Hex)] + DedupFrom(items[i + 1..], seen + {fp}, sha1Hex);
        seen := seen + {fp};
        result := result + [items[i].(fingerprint := Some(fp))];
      } else {
        assert DedupFrom(items[i..], seen, sha1Hex) == DedupFrom(items[i + 1..], seen, sha1Hex);
      }
      i := i + 1;
    }
  }

  /** The kept records carry pairwise different fingerprints, none already seen. */
  lemma {:induction false} DedupDistinct(items: seq<Item>, seen: set<string>, sha1Hex: string -> string)
    ensures forall i | 0 <= i < |DedupFrom(items, seen, sha1Hex)| ::
      Truthy(DedupFrom(items, seen, sha1Hex)[i].fingerprint)
      && DedupFrom(items, seen, sha1Hex)[i].fingerprint.value !in seen
    ensures forall i, j | 0 <= i < j < |DedupFrom(items, seen, sha1Hex)| ::
      DedupFrom(items, seen, sha1Hex)[i].fingerprint != DedupFrom(items, seen, sha1Hex)[j].fingerprint
    decreases |items|
  {
    if items != [] {
      var fp := Fp(items[0], sha1Hex);
      if fp in seen {
        assert DedupFrom(items, seen, sha1Hex) == DedupFrom(items[1..], seen, sha1Hex);
        DedupDistinct(items[1..], seen, sha1Hex);
      } else {
        var rest := DedupFrom(items[1..], seen + {fp}, sha1Hex);
        var r := DedupFrom(items, seen, sha1Hex);
        assert r == [Stamp(items[0], sha1Hex)] + rest;
        assert r[0].fingerprint == Some(fp);
        DedupDistinct(items[1..], seen + {fp}, sha1Hex);
        forall i | 0 <= i < |r| ensures Truthy(r[i].fingerprint) && r[i].fingerprint.value !in seen {
          if i > 0 {
            assert r[i] == rest[i - 1];
            assert Truthy(rest[i - 1].fingerprint) && rest[i - 1].fingerprint.value !in seen + {fp};
          }
        }
        assert forall i | 0 < i < |r| :: r[i] == rest[i - 1];
      }
    }
  }

  /** Every record of `items` with its fingerprint written in, in order. */
  function StampedAll(items: seq<Item>, sha1Hex: string -> string): (r: seq<Item>)
    ensures |r| == |items|
    decreases |items|
  {
    if items == [] then [] else [Stamp(items[0], sha1Hex)] + StampedAll(items[1..], sha1Hex)
  }

  /** The position of the first record of `items` with fingerprint `fp`; `|items|` when there is none. */
  function FirstWith(items: seq<Item>, fp: string, sha1Hex: string -> string): (r: nat)
    ensures r <= |items|
    decreases |items|
  {
    if items == [] then 0
    else if Fp(items[0], sha1Hex) == fp then 0
    else 1 + FirstWith(items[1..], fp, sha1Hex)
  }

  /** Writing the fingerprint in does not change it. */
  lemma StampKeepsFp(item: Item, sha1Hex: string -> string)
    ensures Fp(Stamp(item, sha1Hex), sha1Hex) == Fp(item, sha1Hex)
  {
  }

  /** The kept records are input records, stamped, deleted from the input in their order. */
  lemma {:induction false} DedupSubseq(items: seq<Item>, seen: set<string>, sha1Hex: string -> string)
    ensures IsSubseq(DedupFrom(items, seen, sha1Hex), StampedAll(items, sha1Hex))
    decreases |items|
  {
    if items != [] {
      var fp := Fp(items[0], sha1Hex);
      var all := StampedAll(items, sha1Hex);
      assert all[0] == Stamp(items[0], sha1Hex) && all[1..] == StampedAll(items[1..], sha1Hex);
      if fp in seen {
        DedupSubseq(items[1..], seen, sha1Hex);
      } else {
        var r := DedupFrom(items, seen, sha1Hex);
        DedupSubseq(items[1..], seen + {fp}, sha1Hex);
        assert r[0] == all[0] && r[1..] == DedupFrom(items[1..], seen + {fp}, sha1Hex);
      }
    }
  }

  /** Each kept record is the FIRST input record with its fingerprint, stamped. */
  lemma {:induction false} DedupKeepsFirst(items: seq<Item>, seen: set<string>, sha1Hex: string -> string)
    ensures var r := DedupFrom(items, seen, sha1Hex);
      forall k | 0 <= k < |r| ::
        && FirstWith(items, Fp(r[k], sha1Hex), sha1Hex) < |items|
        && r[k] == Stamp(items[FirstWith(items, Fp(r[k], sha1Hex), sha1Hex)], sha1Hex)
    decreases |items|
  {
    if items != [] {
      var x, t := items[0], items[1..];
      var fp := Fp(x, sha1Hex);
      var r := DedupFrom(items, seen, sha1Hex);
      if fp in seen {
        var rest := DedupFrom(t, seen, sha1Hex);
        assert r == rest;
        DedupKeepsFirst(t, seen, sha1Hex);
        FirstWithShift(items, seen, rest, sha1Hex);
      } else {
        var rest := DedupFrom(t, seen + {fp}, sha1Hex);
        assert r == [Stamp(x, sha1Hex)] + rest;
        DedupKeepsFirst(t, seen + {fp}, sha1Hex);
        StampKeepsFp(x, sha1Hex);
        FirstWithShift(items, seen + {fp}, rest, sha1Hex);
        forall k | 0 < k < |r|
          ensures r[k] == rest[k - 1]
        {
        }
      }
    }
  }

  /**
   * The kept records come in the order in which their fingerprints first appear in the
   * input.
   */
  lemma {:induction false} DedupFirstSeenOrder(items: seq<Item>, seen: set<string>, sha1Hex: string -> string)
    ensures var r := DedupFrom(items, seen, sha1Hex);
      forall k1, k2 | 0 <= k1 < k2 < |r| ::
        FirstWith(items, Fp(r[k1], sha1Hex), sha1Hex) < FirstWith(items, Fp(r[k2], sha1Hex), sha1Hex)
    decreases |items|
  {
    if items != [] {
      var x, t := items[0], items[1..];
      var fp := Fp(x, sha1Hex);
      var r := DedupFrom(items, seen, sha1Hex);
      if fp in seen {
        var rest := DedupFrom(t, seen, sha1Hex);
        assert r == rest;
        DedupFirstSeenOrder(t, seen, sha1Hex);
        FirstWithShift(items, seen, rest, sha1Hex);
      } else {
        var rest := DedupFrom(t, seen + {fp}, sha1Hex);
        assert r == [Stamp(x, sha1Hex)] + rest;
        DedupFirstSeenOrder(t, seen + {fp}, sha1Hex);
        StampKeepsFp(x, sha1Hex);
        FirstWithShift(items, seen + {fp}, rest, sha1Hex);
        forall k | 0 < k < |r|
          ensures r[k] == rest[k - 1]
        {
        }
      }
    }
  }

  /**
   * A record kept from the tail after the head's fingerprint is seen has a fingerprint
   * other than the head's, so its first position in the whole list is one past its first
   * position in the tail.
   */
  lemma FirstWithShift(items: seq<Item>, seen: set<string>, rest: seq<Item>, sha1Hex: string -> string)
    requires items != [] && Fp(items[0], sha1Hex) in seen && rest == DedupFrom(items[1..], seen, sha1Hex)
    ensures forall k | 0 <= k < |rest| ::
      FirstWith(items, Fp(rest[k], sha1Hex), sha1Hex) == 1 + FirstWith(items[1..], Fp(rest[k], sha1Hex), sha1Hex)
  {
    DedupDistinct(items[1..], seen, sha1Hex);
    forall k | 0 <= k < |rest|
      ensures FirstWith(items, Fp(rest[k], sha1Hex), sha1Hex) == 1 + FirstWith(items[1..], Fp(rest[k], sha1Hex), sha1Hex)
    {
      assert Fp(rest[k], sha1Hex) == rest[k].fingerprint.value;
    }
  }

  /** The set of fingerprints of `items`. */
  function FpSet(items: seq<Item>, sha1Hex: string -> string): set<string>
    decreases |items|
  {
    if items == [] then {} else {Fp(items[0], sha1Hex)} + FpSet(items[1..], sha1Hex)
  }

  /** Every fingerprint of the input not already seen is kept, and nothing else is. */
  lemma {:induction false} DedupCovers(items: seq<Item>, seen: set<string>, sha1Hex: string -> string)
    ensures FpSet(DedupFrom(items, seen, sha1Hex), sha1Hex) == FpSet(items, sha1Hex) - seen
    decreases |items|
  {
    if items != [] {
      var fp := Fp(items[0], sha1Hex);
      if fp in seen {
        DedupCovers(items[1..], seen, sha1Hex);
      } else {
        var rest := DedupFrom(items[1..], seen + {fp}, sha1Hex);
        DedupCovers(items[1..], seen + {fp}, sha1Hex);
        var r := [Stamp(items[0], sha1Hex)] + rest;
        assert r[1..] == rest;
        assert Fp(r[0], sha1Hex) == fp;
      }
    }
  }

  /** Deduplication never lengthens the list. */
  lemma {:induction false} DedupNoLonger(items: seq<Item>, seen: set<string>, sha1Hex: string -> string)
    ensures |DedupFrom(items, seen, sha1Hex)| <= |items|
    decreases |items|
  {
    if items != [] {
      DedupNoLonger(items[1..], seen, sha1Hex);
      DedupNoLonger(items[1..], seen + {Fp(items[0], sha1Hex)}, sha1Hex);
    }
  }

  /** Running de-duplication on its own output changes nothing. */
  lemma {:induction false} DedupIdempotent(items: seq<Item>, seen: set<string>, sha1Hex: string -> string)
    ensures DedupFrom(DedupFrom(items, seen, sha1Hex), seen, sha1Hex) == DedupFrom(items, seen, sha1Hex)
    decreases |items|
  {
    DedupDistinct(items, seen, sha1Hex);
    DedupFreshIsIdentity(DedupFrom(items, seen, sha1Hex), seen, sha1Hex);
  }

  /** Stamped records with pairwise different fingerprints outside `seen` all pass. */
  lemma {:induction false} DedupFreshIsIdentity(r: seq<Item>, seen: set<string>, sha1Hex: string -> string)
    requires forall i | 0 <= i < |r| :: Truthy(r[i].fingerprint) && r[i].fingerprint.value !in seen
    requires forall i, j | 0 <= i < j < |r| :: r[i].fingerprint != r[j].fingerprint
    ensures DedupFrom(r, seen, sha1Hex) == r
    decreases |r|
  {
    if r != [] {
      var fp := r[0].fingerprint.value;
      assert Stamp(r[0], sha1Hex) == r[0];
      forall i | 0 <= i < |r[1..]| ensures r[1..][i].fingerprint.value !in seen + {fp} {
        assert r[1..][i] == r[i + 1];
      }
      DedupFreshIsIdentity(r[1..], seen + {fp}, sha1Hex);
    }
  }
}
