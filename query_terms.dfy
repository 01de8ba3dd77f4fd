/**
 * The search terms the Europe PMC, openFDA, preprint and journal RSS connectors filter
 * their results with (`_terms_from_query`, written out identically in each of those
 * files), and the match test against a record's text (`_matches_query`).
 */
module QueryTerms {
  import opened Strings

  /** At most this many terms are kept. */
  const MaxTerms: nat := 20

  /** Shorter words are not terms. */
  const MinTermLength: nat := 4

  /** The query with parentheses, double quotes and the upper-case operators blanked out. */
  function Blanked(query: string): string {
    ReplaceAll(ReplaceAll(ReplaceAll(ReplaceAll(ReplaceAll(query, "(", " "), ")", " "), "\"", " "), "AND", " "), "OR", " ")
  }

  /** `[t.strip().lower() for t in words if len(t.strip()) >= 4]`; a word has nothing to strip. */
  function LongWords(ws: seq<string>): seq<string>
    decreases |ws|
  {
    if ws == [] then [] else (if |ws[0]| >= MinTermLength then [Lower(ws[0])] else []) + LongWords(ws[1..])
  }

  /** `_terms_from_query`: the long words, lower-cased, first occurrences only, at most twenty. */
  function Terms(query: string): seq<string> {
    Take(Distinct(LongWords(Words(Blanked(query)))), MaxTerms)
  }

  /** `_terms_from_query` with its seen-set loop. */
  method TermsFromQuery(query: string) returns (terms: seq<string>)
    ensures terms == Terms(query)
  {
    var out := DistinctInOrder(LongWords(Words(Blanked(query))));
    terms := Take(out, MaxTerms);
  }

  /** `_matches_query`: no terms match everything; otherwise some term occurs in the lower-cased text. */
  predicate Matches(text: string, terms: seq<string>) {
    terms == [] || ContainsAny(Lower(text), terms)
  }

  // ---------------------------------------------------------------- properties

  /** Every character of a replacement's result comes from the input or from the replacement. */
  lemma {:induction false} ReplaceChars(s: string, pat: string, rep: string)
    requires pat != []
    ensures forall c | c in ReplaceAll(s, pat, rep) :: c in s || c in rep
    decreases |s|
  {
    if |s| >= |pat| {
      if s[..|pat|] == pat {
        ReplaceChars(s[|pat|..], pat, rep);
        forall c | c in s[|pat|..] ensures c in s {
          var k :| 0 <= k < |s[|pat|..]| && s[|pat|..][k] == c;
          assert s[|pat| + k] == c;
        }
      } else {
        ReplaceChars(s[1..], pat, rep);
        assert forall c | c in s[1..] :: c in s;
      }
    }
  }

  /** Replacing a one-character pattern by text without it removes that character. */
  lemma {:induction false} ReplaceRemoves(s: string, c: char, rep: string)
    requires c !in rep
    ensures c !in ReplaceAll(s, [c], rep)
    decreases |s|
  {
    if |s| >= 1 {
      ReplaceRemoves(s[1..], c, rep);
    }
  }

  /** The characters of a word come from the text it was split from. */
  lemma {:induction false} WordsChars(s: string)
    ensures forall w, c | w in Words(s) && c in w :: c in s
    decreases |s|
  {
    var t := LStrip(s);
    if t != [] {
      var k := FirstSpace(t);
      WordsChars(t[k..]);
      SuffixChars(s, LeadSpaces(s));
      SuffixChars(t, k);
      PrefixChars(t, k);
    }
  }

  lemma SuffixChars(s: string, k: nat)
    requires k <= |s|
    ensures forall c | c in s[k..] :: c in s
  {
    forall c | c in s[k..] ensures c in s {
      var j :| 0 <= j < |s[k..]| && s[k..][j] == c;
      assert s[k + j] == c;
    }
  }

  lemma PrefixChars(s: string, k: nat)
    requires k <= |s|
    ensures forall c | c in s[..k] :: c in s
  {
    forall c | c in s[..k] ensures c in s {
      var j :| 0 <= j < k && s[..k][j] == c;
      assert s[j] == c;
    }
  }

  /** The blanked query holds no parenthesis and no double quote. */
  lemma BlankedShape(query: string)
    ensures '(' !in Blanked(query) && ')' !in Blanked(query) && '"' !in Blanked(query)
  {
    var a := ReplaceAll(query, "(", " ");
    ReplaceRemoves(query, '(', " ");
    var b := ReplaceAll(a, ")", " ");
    ReplaceRemoves(a, ')', " ");
    ReplaceChars(a, ")", " ");
    var c := ReplaceAll(b, "\"", " ");
    ReplaceRemoves(b, '"', " ");
    ReplaceChars(b, "\"", " ");
    var d := ReplaceAll(c, "AND", " ");
    ReplaceChars(c, "AND", " ");
    ReplaceChars(d, "OR", " ");
  }

  predicate Plain(t: string) {
    forall i | 0 <= i < |t| :: !IsSpace(t[i]) && t[i] != '(' && t[i] != ')' && t[i] != '"' && !('A' <= t[i] <= 'Z')
  }

  /** A word free of space, parentheses and quotes is plain once lower-cased. */
  lemma LowerPlain(w: string, s: string)
    requires '(' !in s && ')' !in s && '"' !in s
    requires forall c | c in w :: c in s
    requires NonSpace(w) == w
    ensures Plain(Lower(w))
  {
    NonSpaceFixed(w);
    forall i | 0 <= i < |w| ensures w[i] != '(' && w[i] != ')' && w[i] != '"' {
      assert w[i] in w;
    }
  }

  /** The long words of words free of space, parentheses and quotes are plain, lower-case and long enough. */
  lemma {:induction false} LongWordsShape(ws: seq<string>, s: string)
    requires '(' !in s && ')' !in s && '"' !in s
    requires forall w, c | w in ws && c in w :: c in s
    requires forall k | 0 <= k < |ws| :: NonSpace(ws[k]) == ws[k]
    ensures forall t | t in LongWords(ws) :: |t| >= MinTermLength && Plain(t)
    ensures forall w | w in ws && |w| >= MinTermLength :: Lower(w) in LongWords(ws)
    decreases |ws|
  {
    if ws != [] {
      var w, rest := ws[0], ws[1..];
      assert forall k | 0 <= k < |rest| :: rest[k] == ws[k + 1];
      assert forall v | v in rest :: v in ws;
      LongWordsShape(rest, s);
      var head := if |w| >= MinTermLength then [Lower(w)] else [];
      assert LongWords(ws) == head + LongWords(rest);
      if |w| >= MinTermLength {
        LowerPlain(w, s);
      }
      assert forall t | t in LongWords(ws) :: t in head || t in LongWords(rest);
    }
  }

  /**
   * The terms are at most twenty distinct plain lower-case words of at least four letters,
   * and every such word of the blanked query is among them unless twenty were already kept.
   * They are the long words in query order, each at its first occurrence, and the first
   * twenty: every term occurs before any long word left out.
   */
  lemma TermsSpec(query: string)
    ensures FirstDistinctOf(Terms(query), LongWords(Words(Blanked(query))), MaxTerms)
    ensures |Terms(query)| <= MaxTerms
    ensures forall i, j | 0 <= i < j < |Terms(query)| :: Terms(query)[i] != Terms(query)[j]
    ensures forall t | t in Terms(query) :: |t| >= MinTermLength && Plain(t)
    ensures forall w | w in Words(Blanked(query)) && |w| >= MinTermLength :: Lower(w) in Terms(query) || |Terms(query)| == MaxTerms
  {
    var raw := Blanked(query);
    BlankedShape(query);
    WordsChars(raw);
    LongWordsShape(Words(raw), raw);
    var d := Distinct(LongWords(Words(raw)));
    DistinctFromSpec(LongWords(Words(raw)), {});
    var r := Take(d, MaxTerms);
    FirstDistinct(LongWords(Words(raw)), MaxTerms);
    assert forall t | t in r :: t in d;
    forall w | w in Words(raw) && |w| >= MinTermLength ensures Lower(w) in r || |r| == MaxTerms {
      if |d| <= MaxTerms {
        assert r == d;
      }
    }
  }

  /** A query with nothing but short words, operators and punctuation gives no terms, so it matches everything. */
  lemma NoTermsMatchAll(query: string, text: string)
    requires forall w | w in Words(Blanked(query)) :: |w| < MinTermLength
    ensures Terms(query) == [] && Matches(text, Terms(query))
  {
    NoLongWords(Words(Blanked(query)));
  }

  lemma {:induction false} NoLongWords(ws: seq<string>)
    requires forall w | w in ws :: |w| < MinTermLength
    ensures LongWords(ws) == []
    decreases |ws|
  {
    if ws != [] {
      NoLongWords(ws[1..]);
    }
  }
}
