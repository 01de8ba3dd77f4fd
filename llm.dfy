/**
 * The checks applied to a language-model rewrite of a structured summary: the reply
 * must carry all seven labelled lines, must not prescribe treatment, and must not
 * introduce numbers absent from the evidence and the deterministic summary. The
 * request itself is an input (`reply`, `None` when it fails).
 */
module Llm {
  import opened Wrappers
  import opened Strings
  import opened TextUtils
  import opened Patterns

  /** The labels of a structured summary, in output order. */
  const RequiredKeys: seq<string> := [
    "Study type / phase",
    "Population",
    "Intervention vs comparator",
    "Endpoints mentioned",
    "Key finding",
    "Supporting snippets",
    "Why it matters"
  ]

  /** `_extract_numbers` */
  function ExtractNumbers(text: string): set<string> {
    NumberSet(text)
  }

  /** Phrases that recommend a treatment. */
  const PrescriptivePhrases: seq<string> := [
    "should use", "preferred regimen", "must use", "recommend using", "first-line choice", "best treatment"
  ]

  /** `_has_prescriptive_language`: a phrase occurs in the lower-cased text. */
  predicate HasPrescriptiveLanguage(text: string) {
    ContainsAny(Lower(text), PrescriptivePhrases)
  }

  // ---------------------------------------------------------------- key: value lines

  /** The cleaned text before the first ':' of a line. */
  function KeyOf(line: string): string
    requires ':' in line
  {
    CleanText(line[..IndexOf(line, ':')])
  }

  /** The cleaned text after the first ':' of a line. */
  function ValueOf(line: string): string
    requires ':' in line
  {
    CleanText(line[IndexOf(line, ':') + 1..])
  }

  /** The dictionary built from the first `n` lines: lines without ':' are skipped. */
  function ParsedUpTo(lines: seq<string>, n: nat): map<string, string>
    requires n <= |lines|
  {
    if n == 0 then map[]
    else
      var m := ParsedUpTo(lines, n - 1);
      if ':' in lines[n - 1] then m[KeyOf(lines[n - 1]) := ValueOf(lines[n - 1])] else m
  }

  /** What `_parse_lines` returns for `text`. */
  function Parsed(text: string): map<string, string> {
    ParsedUpTo(SplitLines(text), |SplitLines(text)|)
  }

  /** The keys are exactly those of the lines holding a ':'. */
  lemma {:induction false} ParsedKeys(lines: seq<string>, n: nat)
    requires n <= |lines|
    ensures forall k :: k in ParsedUpTo(lines, n) <==> exists i | 0 <= i < n :: ':' in lines[i] && KeyOf(lines[i]) == k
    decreases n
  {
    if n > 0 {
      ParsedKeys(lines, n - 1);
      var m := ParsedUpTo(lines, n - 1);
      var last := lines[n - 1];
      var keys := if ':' in last then m.Keys + {KeyOf(last)} else m.Keys;
      assert ParsedUpTo(lines, n).Keys == keys;
      forall k ensures k in keys <==> exists i | 0 <= i < n :: ':' in lines[i] && KeyOf(lines[i]) == k {
        if k in m {
          var i :| 0 <= i < n - 1 && ':' in lines[i] && KeyOf(lines[i]) == k;
          assert 0 <= i < n;
        }
        if exists i | 0 <= i < n :: ':' in lines[i] && KeyOf(lines[i]) == k {
          var i :| 0 <= i < n && ':' in lines[i] && KeyOf(lines[i]) == k;
          if i < n - 1 { assert k in m; }
        }
      }
    }
  }

  /** A key's value comes from the last line carrying that key. */
  lemma {:induction false} ParsedLastWins(lines: seq<string>, n: nat, i: nat)
    requires i < n <= |lines| && ':' in lines[i]
    requires forall j | i < j < n :: !(':' in lines[j] && KeyOf(lines[j]) == KeyOf(lines[i]))
    ensures KeyOf(lines[i]) in ParsedUpTo(lines, n)
    ensures ParsedUpTo(lines, n)[KeyOf(lines[i])] == ValueOf(lines[i])
    decreases n
  {
    var m := ParsedUpTo(lines, n - 1);
    if n - 1 > i {
      ParsedLastWins(lines, n - 1, i);
      if ':' in lines[n - 1] {
        assert !(KeyOf(lines[n - 1]) == KeyOf(lines[i]));
        assert ParsedUpTo(lines, n) == m[KeyOf(lines[n - 1]) := ValueOf(lines[n - 1])];
      } else {
        assert ParsedUpTo(lines, n) == m;
      }
    } else {
      assert ParsedUpTo(lines, n) == m[KeyOf(lines[i]) := ValueOf(lines[i])];
    }
  }

  /** `_parse_lines` */
  method ParseLines(summaryText: string) returns (out: map<string, string>)
    ensures out == Parsed(summaryText)
  {
    var lines := SplitLines(summaryText);
    out := map[];
    var i := 0;
    while i < |lines|
      invariant 0 <= i <= |lines|
      invariant out == ParsedUpTo(lines, i)
    {
      out := ParseLine(lines, i, out);
      i := i + 1;
    }
  }

  /** One line of `_parse_lines`: a line with a ':' sets its key, any other is skipped. */
  method ParseLine(lines: seq<string>, i: nat, m: map<string, string>) returns (next: map<string, string>)
    requires i < |lines| && m == ParsedUpTo(lines, i)
    ensures next == ParsedUpTo(lines, i + 1)
    ensures ':' in lines[i] ==> next == m[KeyOf(lines[i]) := ValueOf(lines[i])]
    ensures ':' !in lines[i] ==> next == m
  {
    var line := lines[i];
    next := m;
    if ':' in line {
      next := next[KeyOf(line) := ValueOf(line)];
    }
  }

  /** `_is_valid_structured_summary`: every required key was parsed. */
  predicate IsValidStructuredSummary(text: string) {
    forall k | k in RequiredKeys :: k in Parsed(text)
  }

  // ---------------------------------------------------------------- ordered output

  function ValueOr(parsed: map<string, string>, k: string): string {
    if k in parsed then parsed[k] else "Not stated"
  }

  /** One `key: value` line per required key, in order, missing values shown as "Not stated". */
  function FormattedLines(parsed: map<string, string>): (r: seq<string>)
    ensures |r| == |RequiredKeys|
  {
    seq(|RequiredKeys|, i requires 0 <= i < |RequiredKeys| => RequiredKeys[i] + ": " + CleanText(ValueOr(parsed, RequiredKeys[i])))
  }

  /** `_format_ordered` */
  function FormatOrdered(parsed: map<string, string>): string {
    Join("\n", FormattedLines(parsed))
  }

  /**
   * From position `i` on, `s` holds only letters, digits, '/' and spaces each followed
   * by a non-space: the characters of a label.
   */
  predicate LabelCharsFrom(s: string, i: nat)
    decreases |s| - i
  {
    i >= |s| || ((IsAlnum(s[i]) || s[i] == '/' || (s[i] == ' ' && i + 1 < |s| && s[i + 1] != ' ')) && LabelCharsFrom(s, i + 1))
  }

  /** A label: non-empty, not starting with a space, made of label characters. */
  predicate PlainLabel(s: string) {
    s != [] && s[0] != ' ' && LabelCharsFrom(s, 0)
  }

  lemma {:induction false} LabelCharsAt(s: string, i: nat)
    requires LabelCharsFrom(s, i)
    ensures forall j | i <= j < |s| :: IsAlnum(s[j]) || s[j] == '/' || (s[j] == ' ' && j + 1 < |s| && s[j + 1] != ' ')
    decreases |s| - i
  {
    if i < |s| {
      LabelCharsAt(s, i + 1);
    }
  }

  /** A label is one clean line free of ':', '&' and '<'. */
  lemma PlainLabelClean(s: string)
    requires PlainLabel(s)
    ensures Lacks(s, ':') && Lacks(s, '&') && Lacks(s, '<')
    ensures Trimmed(s) && SingleSpaced(s) && NoLineBreak(s)
  {
    LabelCharsAt(s, 0);
  }

  // The labels are checked one by one: each check evaluates `LabelCharsFrom` on a literal,
  // in stages of a few characters.

  lemma StudyKeyPlain()
    ensures PlainLabel("Study type / phase")
  {
    assert LabelCharsFrom("Study type / phase", 9);
  }

  lemma ArmsKeyPlain()
    ensures PlainLabel("Intervention vs comparator")
  {
    var arms := "Intervention vs comparator";
    assert LabelCharsFrom(arms, 18);
    assert LabelCharsFrom(arms, 13);
    assert LabelCharsFrom(arms, 8);
    assert LabelCharsFrom(arms, 4);
  }

  lemma EndpointsKeyPlain()
    ensures PlainLabel("Endpoints mentioned")
  {
    assert LabelCharsFrom("Endpoints mentioned", 10);
  }

  lemma SnippetsKeyPlain()
    ensures PlainLabel("Supporting snippets")
  {
    assert LabelCharsFrom("Supporting snippets", 10);
  }

  /** Each required label is a `PlainLabel`. */
  lemma RequiredKeysPlain()
    ensures forall i | 0 <= i < |RequiredKeys| :: PlainLabel(RequiredKeys[i])
  {
    StudyKeyPlain();
    ArmsKeyPlain();
    EndpointsKeyPlain();
    SnippetsKeyPlain();
    assert PlainLabel("Population");
    assert PlainLabel("Key finding");
    assert PlainLabel("Why it matters");
  }

  lemma NoLineBreakConcat(a: string, b: string)
    requires NoLineBreak(a) && NoLineBreak(b)
    ensures NoLineBreak(a + b)
  {
    assert forall j | |a| <= j < |a + b| :: (a + b)[j] == b[j - |a|];
  }

  /** The formatted summary is exactly seven lines, the labels in order. */
  lemma FormatOrderedLines(parsed: map<string, string>)
    ensures SplitLines(FormatOrdered(parsed)) == FormattedLines(parsed)
    ensures forall i | 0 <= i < |RequiredKeys| ::
      SplitLines(FormatOrdered(parsed))[i] == RequiredKeys[i] + ": " + CleanText(ValueOr(parsed, RequiredKeys[i]))
  {
    var lines := FormattedLines(parsed);
    RequiredKeysPlain();
    forall i | 0 <= i < |lines| ensures lines[i] != [] && NoLineBreak(lines[i]) {
      var v := CleanText(ValueOr(parsed, RequiredKeys[i]));
      PlainLabelClean(RequiredKeys[i]);
      CleanTextShape(ValueOr(parsed, RequiredKeys[i]));
      assert NoLineBreak(": ");
      NoLineBreakConcat(RequiredKeys[i], ": ");
      NoLineBreakConcat(RequiredKeys[i] + ": ", v);
    }
    SplitLinesJoin(lines);
  }

  /** The label of a formatted line parses back to itself. */
  lemma FormattedKey(key: string, v: string)
    requires PlainLabel(key)
    ensures ':' in key + ": " + v
    ensures KeyOf(key + ": " + v) == key
  {
    var line := key + ": " + v;
    PlainLabelClean(key);
    assert line[|key|] == ':';
    assert IndexOf(line, ':') == |key|;
    assert line[..|key|] == key;
    CleanTextOfClean(key);
  }

  /** Re-parsing a formatted summary finds every label: the output passes the validity check. */
  lemma FormatOrderedValid(parsed: map<string, string>)
    ensures IsValidStructuredSummary(FormatOrdered(parsed))
  {
    var lines := FormattedLines(parsed);
    FormatOrderedLines(parsed);
    RequiredKeysPlain();
    ParsedKeys(lines, |lines|);
    forall i | 0 <= i < |RequiredKeys| ensures RequiredKeys[i] in Parsed(FormatOrdered(parsed)) {
      FormattedKey(RequiredKeys[i], CleanText(ValueOr(parsed, RequiredKeys[i])));
      assert ':' in lines[i] && KeyOf(lines[i]) == RequiredKeys[i];
    }
  }

  // ---------------------------------------------------------------- polishing

  /** The cleaned snippets that are not empty. */
  function CleanedSnippets(snippets: seq<string>): (r: seq<string>)
    ensures |r| <= |snippets|
    ensures forall k | 0 <= k < |r| :: r[k] != ""
  {
    if snippets == [] then []
    else (if CleanText(snippets[0]) == "" then [] else [CleanText(snippets[0])]) + CleanedSnippets(snippets[1..])
  }

  /** The cleaned source followed by the cleaned snippets, one per line. */
  function EvidenceBlob(sourceText: string, snippets: seq<string>): string {
    Join("\n", [CleanText(sourceText)] + CleanedSnippets(snippets))
  }

  /** The post-response guards: the reformatted reply, or `None` when a guard rejects it. */
  function Review(text: string, evidence: string, deterministicSummary: string): Option<string> {
    if text == "" || !IsValidStructuredSummary(text) then None
    else if HasPrescriptiveLanguage(text) then None
    else if !(ExtractNumbers(text) <= ExtractNumbers(evidence + "\n" + deterministicSummary)) then None
    else Some(FormatOrdered(Parsed(text)))
  }

  /**
   * `polish_summary_strict`, with the reply's cleaning as a parameter: the code as
   * written cleans it with `clean_text`, the corrected version with `clean_multiline_text`.
   */
  function Polish(deterministicSummary: string, sourceText: string, snippets: seq<string>, apiKey: string,
                  reply: Option<string>, cleanReply: string -> string): (r: Option<string>)
    ensures apiKey == "" || CleanText(sourceText) == "" || reply.None? ==> r.None?
    ensures r.Some? ==> var text := cleanReply(reply.value);
      && IsValidStructuredSummary(text)
      && !HasPrescriptiveLanguage(text)
      && ExtractNumbers(text) <= ExtractNumbers(EvidenceBlob(sourceText, snippets) + "\n" + deterministicSummary)
      && r.value == FormatOrdered(Parsed(text))
      && IsValidStructuredSummary(r.value)
  {
    if apiKey == "" then None
    else if CleanText(sourceText) == "" then None
    else match reply
      case None => None
      case Some(content) =>
        var r := Review(cleanReply(content), EvidenceBlob(sourceText, snippets), deterministicSummary);
        FormatOrderedValid(Parsed(cleanReply(content)));
        r
  }

  /** The code as written: the reply goes through `clean_text`. */
  function PolishSummaryAsWritten(deterministicSummary: string, sourceText: string, snippets: seq<string>,
                                  apiKey: string, reply: Option<string>): Option<string> {
    Polish(deterministicSummary, sourceText, snippets, apiKey, reply, CleanText)
  }

  /** The corrected version: the reply keeps its lines through `clean_multiline_text`. */
  function PolishSummaryStrict(deterministicSummary: string, sourceText: string, snippets: seq<string>,
                               apiKey: string, reply: Option<string>): Option<string> {
    Polish(deterministicSummary, sourceText, snippets, apiKey, reply, CleanMultilineText)
  }

  /** One line gives at most one key. */
  lemma OneLineOneKey(lines: seq<string>, k1: string, k2: string)
    requires |lines| <= 1
    requires k1 in ParsedUpTo(lines, |lines|) && k2 in ParsedUpTo(lines, |lines|)
    ensures k1 == k2
  {
    if |lines| == 1 {
      assert ParsedUpTo(lines, 0) == map[];
    }
  }

  /** Text of at most one line yields at most one key, never all seven. */
  lemma OneLineNeverValid(text: string)
    requires |SplitLines(text)| <= 1
    ensures !IsValidStructuredSummary(text)
  {
    if IsValidStructuredSummary(text) {
      assert |RequiredKeys[0]| != |RequiredKeys[1]|;
      assert RequiredKeys[0] in Parsed(text) && RequiredKeys[1] in Parsed(text);
      OneLineOneKey(SplitLines(text), RequiredKeys[0], RequiredKeys[1]);
    }
  }

  /**
   * As written, every reply is rejected: `clean_text` folds the seven lines into one,
   * so at most one label is ever parsed.
   */
  lemma PolishAsWrittenAlwaysNone(deterministicSummary: string, sourceText: string, snippets: seq<string>,
                                  apiKey: string, reply: Option<string>)
    ensures PolishSummaryAsWritten(deterministicSummary, sourceText, snippets, apiKey, reply).None?
  {
    if reply.Some? {
      CleanTextIsOneLine(reply.value);
      OneLineNeverValid(CleanText(reply.value));
    }
  }

  /**
   * Corrected, a reply that is already clean lines and passes the three guards is
   * accepted, reformatted in label order.
   */
  lemma PolishStrictAcceptsCleanReply(deterministicSummary: string, sourceText: string, snippets: seq<string>,
                                      apiKey: string, lines: seq<string>)
    requires apiKey != "" && CleanText(sourceText) != ""
    requires |lines| >= 1 && CanonicalLines(lines)
    requires var text := Join("\n", lines);
      && IsValidStructuredSummary(text)
      && !HasPrescriptiveLanguage(text)
      && ExtractNumbers(text) <= ExtractNumbers(EvidenceBlob(sourceText, snippets) + "\n" + deterministicSummary)
    ensures PolishSummaryStrict(deterministicSummary, sourceText, snippets, apiKey, Some(Join("\n", lines)))
      == Some(FormatOrdered(Parsed(Join("\n", lines))))
  {
    CleanMultilineKeepsLines(lines);
    JoinTrimmed(lines);
  }
}
