/**
 * The deterministic seven-line summary of a record: study type, population,
 * intervention and comparator, endpoints, key finding, supporting snippets and
 * a short "why it matters" line, with the guards that keep numbers and
 * prescriptive wording out of it, and the optional language-model polish on top.
 *
 * The population and intervention extractors are regular-expression searches;
 * their matches (group 1 of each pattern, in pattern order) are parameters here.
 */
module Summarize {
  import opened Wrappers
  import opened Strings
  import opened TextUtils
  import opened Patterns
  import opened Records
  import ExtractFields
  import Llm

  /** The head of every "why it matters" line. */
  const WhyHead: string := "Why it matters:"
  /** What the "why it matters" line says when there is nothing to say. */
  const NoInfoValue: string := "Not enough info in abstract."
  /** "Why it matters: Not enough info in abstract." */
  const NoInfoWhy: string := WhyHead + " " + NoInfoValue
  const NotStated: string := "Not stated"
  const NoKeyFinding: string := "Not explicitly stated in provided text"

  /** Wording the "why it matters" line must not carry, in the order it is removed. */
  const BannedPhrases: seq<string> := [
    "should use", "preferred regimen", "must use", "recommend using", "first-line choice", "best treatment"
  ]

  // ---------------------------------------------------------------- plain literals

  /** The characters the fixed answers are written with: letters, spaces and a little punctuation. */
  predicate WordishChar(c: char) {
    'a' <= c <= 'z' || 'A' <= c <= 'Z' || c == ' ' || c == '/' || c == '-' || c == '.'
  }

  /** `s` is written with `WordishChar`s only. */
  predicate Plain(s: string) {
    forall j | 0 <= j < |s| :: WordishChar(s[j])
  }

  /** Plain text holds no number and no line break. */
  lemma PlainText(s: string)
    requires Plain(s)
    ensures !HasNumber(s) && NoLineBreak(s)
  {
    HasNumberIff(s);
  }

  /** The "nothing found" answers carry no number and no line break. */
  lemma FallbacksPlain()
    ensures !HasNumber(NotStated) && NoLineBreak(NotStated)
    ensures !HasNumber(NoKeyFinding) && NoLineBreak(NoKeyFinding)
  {
    assert Plain(NotStated);
    PlainText(NotStated);
    assert Plain(NoKeyFinding);
    PlainText(NoKeyFinding);
  }

  // ---------------------------------------------------------------- study type

  /** `_detect_study_type` */
  function StudyType(text: string): string {
    var t := Lower(text);
    if Contains(t, "meta-analysis") || Contains(t, "systematic review") then "Meta-analysis / systematic review"
    else if Contains(t, "randomized") || Contains(t, "rct") then "Randomized trial"
    else if Contains(t, "phase iii") || Contains(t, "phase 3") then "Phase III trial"
    else if Contains(t, "phase ii") || Contains(t, "phase 2") then "Phase II trial"
    else NotStated
  }

  /** The design cues of the summary, highest priority first. */
  const StudyCues: ExtractFields.CueTable := [
    (["meta-analysis", "systematic review"], "Meta-analysis / systematic review"),
    (["randomized", "rct"], "Randomized trial"),
    (["phase iii", "phase 3"], "Phase III trial"),
    (["phase ii", "phase 2"], "Phase II trial")
  ]

  /** The study type is the label of the first cue group present in the lower-cased text. */
  lemma StudyTypeByPriority(text: string)
    ensures StudyType(text) == ExtractFields.ClassifyFrom(Lower(text), StudyCues, 0, NotStated)
  {
    var t := Lower(text);
    ExtractFields.ContainsAnyTwo(t, "meta-analysis", "systematic review");
    ExtractFields.ContainsAnyTwo(t, "randomized", "rct");
    ExtractFields.ContainsAnyTwo(t, "phase iii", "phase 3");
    ExtractFields.ContainsAnyTwo(t, "phase ii", "phase 2");
  }

  /** Every study type is a plain one-line label without numbers. */
  lemma StudyTypePlain(text: string)
    ensures !HasNumber(StudyType(text)) && NoLineBreak(StudyType(text))
  {
    assert Plain("Meta-analysis / systematic review");
    PlainText("Meta-analysis / systematic review");
    assert Plain("Randomized trial");
    PlainText("Randomized trial");
    assert Plain("Phase III trial");
    PlainText("Phase III trial");
    assert Plain("Phase II trial");
    PlainText("Phase II trial");
    FallbacksPlain();
  }

  // ---------------------------------------------------------------- guarded extractors

  /** The numeric guard: a candidate is dropped, as "Not stated", when it holds a number. */
  function Guarded(candidate: string, otherwise: string): string {
    if HasNumber(Strip(candidate)) then otherwise else Strip(candidate)
  }

  /** The first pattern match from pattern `i` on, as `_extract_population` tries its patterns in turn. */
  function FirstMatch(matches: seq<Option<string>>, i: nat): (r: Option<string>)
    ensures r.Some? ==> r in matches
    decreases |matches| - i
  {
    if i >= |matches| then None
    else if matches[i].Some? then matches[i]
    else FirstMatch(matches, i + 1)
  }

  /** `_extract_population`, given group 1 of each pattern's first match, in pattern order. */
  function Population(matches: seq<Option<string>>): (r: string)
    ensures !HasNumber(r)
  {
    FallbacksPlain();
    match FirstMatch(matches, 0)
    case Some(m) => Guarded(m, NotStated)
    case None => NotStated
  }

  /**
   * The first pattern that matches decides: its stripped match, or "Not stated" when
   * that match holds a number. Later patterns are not consulted.
   */
  lemma {:induction false} FirstMatchIs(matches: seq<Option<string>>, i: nat, k: nat)
    requires i <= k < |matches| && matches[k].Some?
    requires forall j | i <= j < k :: matches[j].None?
    ensures FirstMatch(matches, i) == matches[k]
    decreases k - i
  {
    if i < k {
      FirstMatchIs(matches, i + 1, k);
    }
  }

  lemma {:induction false} FirstMatchNone(matches: seq<Option<string>>, i: nat)
    requires forall j | i <= j < |matches| :: matches[j].None?
    ensures FirstMatch(matches, i).None?
    decreases |matches| - i
  {
    if i < |matches| {
      FirstMatchNone(matches, i + 1);
    }
  }

  /** The population is that of the first matching pattern, guarded; "Not stated" when none matches. */
  lemma PopulationSpec(matches: seq<Option<string>>, k: nat)
    requires k <= |matches|
    requires forall j | 0 <= j < k :: matches[j].None?
    ensures k < |matches| && matches[k].Some? ==> Population(matches) == Guarded(matches[k].value, NotStated)
    ensures k == |matches| ==> Population(matches) == NotStated
  {
    if k < |matches| && matches[k].Some? {
      FirstMatchIs(matches, 0, k);
    }
    if k == |matches| {
      FirstMatchNone(matches, 0);
    }
  }

  /**
   * `_extract_intervention`, given group 1 of the comparison pattern's match and of the
   * "received" pattern's match.
   */
  function Intervention(compared: Option<string>, received: Option<string>): (r: string)
    ensures !HasNumber(r)
    ensures compared.Some? && HasNumber(Strip(compared.value)) ==> r == NotStated
    ensures compared.None? && received.None? ==> r == NotStated
    ensures r != NotStated ==>
      if compared.Some? then r == Strip(compared.value) else received.Some? && r == Strip(received.value)
  {
    FallbacksPlain();
    match compared
    case Some(m) => Guarded(m, NotStated)
    case None =>
      match received
      case Some(m2) => Guarded(m2, NotStated)
      case None => NotStated
  }

  // ---------------------------------------------------------------- endpoints

  /** The endpoint tokens in the order they are checked, each with how it is shown. */
  const EndpointTokens: seq<(string, string)> := [
    ("overall survival", "overall survival"),
    ("os", "OS"),
    ("progression-free survival", "progression-free survival"),
    ("pfs", "PFS"),
    ("orr", "ORR"),
    ("toxicity", "toxicity"),
    ("adverse event", "adverse event")
  ]

  /** Exactly the abbreviations "os", "pfs" and "orr" are shown upper-cased. */
  lemma EndpointTokensShown()
    ensures forall k | 0 <= k < |EndpointTokens| ::
      EndpointTokens[k].1 ==
        if EndpointTokens[k].0 in {"os", "pfs", "orr"} then Upper(EndpointTokens[k].0) else EndpointTokens[k].0
  {
    assert Upper("os") == "OS";
    assert Upper("pfs") == "PFS";
    assert Upper("orr") == "ORR";
  }

  /** The shown names of the first `n` tokens found in `t`, in token order. */
  function TokensFound(t: string, n: nat): seq<string>
    requires n <= |EndpointTokens|
  {
    if n == 0 then []
    else TokensFound(t, n - 1) + (if Contains(t, EndpointTokens[n - 1].0) then [EndpointTokens[n - 1].1] else [])
  }

  /** The endpoints line for lower-cased text `t`. */
  function EndpointsText(t: string): string {
    var found := TokensFound(t, |EndpointTokens|);
    if found == [] then NotStated else Join(", ", SortedSet(found))
  }

  /** `_extract_endpoints` */
  method ExtractEndpoints(text: string) returns (r: string)
    ensures r == EndpointsText(Lower(text))
  {
    var endpoints: seq<string> := [];
    var lower := Lower(text);
    for i := 0 to |EndpointTokens|
      invariant endpoints == TokensFound(lower, i)
    {
      var (token, shown) := EndpointTokens[i];
      if Contains(lower, token) {
        endpoints := endpoints + [shown];
      }
    }
    r := if endpoints == [] then NotStated else Join(", ", SortedSet(endpoints));
  }

  lemma {:induction false} TokensFoundEmpty(t: string, n: nat)
    requires n <= |EndpointTokens|
    ensures TokensFound(t, n) == [] <==> forall k | 0 <= k < n :: !Contains(t, EndpointTokens[k].0)
    decreases n
  {
    if n > 0 {
      TokensFoundEmpty(t, n - 1);
    }
  }

  lemma {:induction false} TokensFoundSpec(t: string, n: nat)
    requires n <= |EndpointTokens|
    ensures forall name :: name in TokensFound(t, n) <==>
      exists k | 0 <= k < n :: Contains(t, EndpointTokens[k].0) && EndpointTokens[k].1 == name
    decreases n
  {
    if n > 0 {
      TokensFoundSpec(t, n - 1);
      var tok := EndpointTokens[n - 1];
      forall name ensures name in TokensFound(t, n) <==>
        exists k | 0 <= k < n :: Contains(t, EndpointTokens[k].0) && EndpointTokens[k].1 == name
      {
        if exists k | 0 <= k < n :: Contains(t, EndpointTokens[k].0) && EndpointTokens[k].1 == name {
          var k :| 0 <= k < n && Contains(t, EndpointTokens[k].0) && EndpointTokens[k].1 == name;
          if k < n - 1 {
            assert name in TokensFound(t, n - 1);
          }
        }
      }
    }
  }

  /**
   * With no token in the text the line is "Not stated"; otherwise it lists, in increasing
   * order and each once, the shown names of exactly the tokens that occur.
   */
  lemma EndpointsTextSpec(t: string)
    ensures (forall k | 0 <= k < |EndpointTokens| :: !Contains(t, EndpointTokens[k].0)) ==> EndpointsText(t) == NotStated
    ensures (exists k | 0 <= k < |EndpointTokens| :: Contains(t, EndpointTokens[k].0)) ==>
      exists names ::
        && EndpointsText(t) == Join(", ", names)
        && StrictlySorted(names)
        && forall name :: name in names <==>
             exists k | 0 <= k < |EndpointTokens| :: Contains(t, EndpointTokens[k].0) && EndpointTokens[k].1 == name
  {
    var found := TokensFound(t, |EndpointTokens|);
    TokensFoundEmpty(t, |EndpointTokens|);
    TokensFoundSpec(t, |EndpointTokens|);
    if exists k | 0 <= k < |EndpointTokens| :: Contains(t, EndpointTokens[k].0) {
      var k :| 0 <= k < |EndpointTokens| && Contains(t, EndpointTokens[k].0);
      assert EndpointTokens[k].1 in found;
      var names := SortedSet(found);
      assert EndpointsText(t) == Join(", ", names);
    }
  }

  // ---------------------------------------------------------------- sentences

  predicate SentenceEnd(c: char) {
    c == '.' || c == '!' || c == '?'
  }

  /** The first whitespace at or after `i` (`i` >= 1) that follows a sentence end, or `|s|`. */
  function SentenceBreak(s: string, i: nat): (k: nat)
    requires 1 <= i
    ensures i <= k || k == |s|
    ensures k <= |s| || k == i
    ensures k < |s| ==> 1 <= k && IsSpace(s[k])
    decreases |s| - i
  {
    if i >= |s| then |s|
    else if IsSpace(s[i]) && SentenceEnd(s[i - 1]) then i
    else SentenceBreak(s, i + 1)
  }

  /** `re.split(r"(?<=[.!?])\s+", s)` */
  function SplitSentences(s: string): (r: seq<string>)
    ensures |r| >= 1
    decreases |s|
  {
    var k := SentenceBreak(s, 1);
    if k >= |s| then [s] else [s[..k]] + SplitSentences(s[SkipSpaces(s, k)..])
  }

  /** The pieces of one-line text are one-line. */
  lemma {:induction false} SplitSentencesOneLine(s: string)
    requires NoLineBreak(s)
    ensures forall k | 0 <= k < |SplitSentences(s)| :: NoLineBreak(SplitSentences(s)[k])
    decreases |s|
  {
    var k := SentenceBreak(s, 1);
    if k < |s| {
      var rest := s[SkipSpaces(s, k)..];
      SplitSentencesOneLine(rest);
      assert SplitSentences(s) == [s[..k]] + SplitSentences(rest);
    }
  }

  /** The cue words of a reported result. */
  const FindingCues: seq<string> := [
    "significant", "improved", "reduced", "increased", "no difference",
    "met primary endpoint", "superior", "non-inferior", "did not meet"
  ]

  predicate HasFindingCue(sentence: string) {
    ContainsAny(Lower(sentence), FindingCues)
  }

  /** The first sentence from `i` on that holds a cue. */
  function FirstCueSentence(sentences: seq<string>, i: nat): (r: Option<string>)
    ensures r.Some? ==> r.value in sentences
    decreases |sentences| - i
  {
    if i >= |sentences| then None
    else if HasFindingCue(sentences[i]) then Some(sentences[i])
    else FirstCueSentence(sentences, i + 1)
  }

  /** `_extract_key_finding` */
  function KeyFinding(text: string): string {
    match FirstCueSentence(SplitSentences(Strip(text)), 0)
    case Some(s) => Guarded(s, NoKeyFinding)
    case None => NoKeyFinding
  }

  lemma {:induction false} FirstCueSentenceIs(sentences: seq<string>, i: nat, k: nat)
    requires i <= k < |sentences| && HasFindingCue(sentences[k])
    requires forall j | i <= j < k :: !HasFindingCue(sentences[j])
    ensures FirstCueSentence(sentences, i) == Some(sentences[k])
    decreases k - i
  {
    if i < k {
      FirstCueSentenceIs(sentences, i + 1, k);
    }
  }

  lemma {:induction false} FirstCueSentenceNone(sentences: seq<string>, i: nat)
    requires forall j | i <= j < |sentences| :: !HasFindingCue(sentences[j])
    ensures FirstCueSentence(sentences, i).None?
    decreases |sentences| - i
  {
    if i < |sentences| {
      FirstCueSentenceNone(sentences, i + 1);
    }
  }

  /**
   * The first sentence with a cue decides: it is the key finding, stripped, unless it holds
   * a number; with no cue anywhere the finding is reported as not stated.
   */
  lemma KeyFindingSpec(text: string, k: nat)
    requires var ss := SplitSentences(Strip(text));
      k <= |ss| && forall j | 0 <= j < k :: !HasFindingCue(ss[j])
    ensures var ss := SplitSentences(Strip(text));
      && (k < |ss| && HasFindingCue(ss[k]) ==> KeyFinding(text) == Guarded(ss[k], NoKeyFinding))
      && (k == |ss| ==> KeyFinding(text) == NoKeyFinding)
  {
    var ss := SplitSentences(Strip(text));
    if k < |ss| && HasFindingCue(ss[k]) {
      FirstCueSentenceIs(ss, 0, k);
    }
    if k == |ss| {
      FirstCueSentenceNone(ss, 0);
    }
  }

  /** The key finding never states a number, and it is one line when the text is. */
  lemma KeyFindingPlain(text: string)
    requires NoLineBreak(text)
    ensures !HasNumber(KeyFinding(text)) && NoLineBreak(KeyFinding(text))
  {
    FallbacksPlain();
    NoLineBreakStrip(text);
    var ss := SplitSentences(Strip(text));
    SplitSentencesOneLine(Strip(text));
    match FirstCueSentence(ss, 0)
    case Some(s) => NoLineBreakStrip(s);
    case None =>
  }

  /** One sentence as `_clean_sentences` normalises it: its words joined by single spaces. */
  function SentenceWords(s: string): string {
    Join(" ", Words(s))
  }

  /** The normalised sentences long enough to keep (at least 30 characters), in order. */
  function LongSentences(raw: seq<string>): seq<string> {
    if raw == [] then [] else LongSentences(raw[..|raw| - 1]) + KeptSentence(raw[|raw| - 1])
  }

  /** One piece, normalised, when it is long enough to keep. */
  function KeptSentence(s: string): seq<string> {
    var s2 := SentenceWords(s);
    if s2 == "" || |s2| < 30 then [] else [s2]
  }

  lemma LongSentencesStep(raw: seq<string>, i: nat)
    requires i < |raw|
    ensures LongSentences(raw[..i + 1]) == LongSentences(raw[..i]) + KeptSentence(raw[i])
  {
    assert raw[..i + 1][..i] == raw[..i];
  }

  /** Once the first pieces yield `cap` sentences, those are the first `cap` kept sentences. */
  lemma LongSentencesCap(raw: seq<string>, n: nat, cap: nat)
    requires n <= |raw| && |LongSentences(raw[..n])| == cap
    ensures Take(LongSentences(raw), cap) == LongSentences(raw[..n])
  {
    LongSentencesPrefix(raw, n);
  }

  /** The loop's early exit: the sentences kept so far are the first `SentenceCap` of all of them. */
  lemma CapReached(raw: seq<string>, n: nat, cleaned: seq<string>, maxSentences: int)
    requires n <= |raw| && cleaned == LongSentences(raw[..n])
    requires |cleaned| == SentenceCap(maxSentences)
    ensures cleaned == Take(LongSentences(raw), SentenceCap(maxSentences))
  {
    LongSentencesCap(raw, n, |cleaned|);
  }

  /** The largest number of sentences kept: the loop stops once it holds `maxSentences`, and never before one. */
  function SentenceCap(maxSentences: int): nat {
    if maxSentences < 1 then 1 else maxSentences
  }

  /** `_clean_sentences` */
  method CleanSentences(text: string, maxSentences: int) returns (cleaned: seq<string>)
    ensures cleaned == Take(LongSentences(SplitSentences(Strip(text))), SentenceCap(maxSentences))
  {
    cleaned := KeepLongSentences(SplitSentences(Strip(text)), maxSentences);
  }

  /** The loop of `_clean_sentences` over the split pieces: keep long ones, stop at the cap. */
  method KeepLongSentences(raw: seq<string>, maxSentences: int) returns (cleaned: seq<string>)
    ensures cleaned == Take(LongSentences(raw), SentenceCap(maxSentences))
  {
    cleaned := [];
    var i := 0;
    while i < |raw|
      invariant i <= |raw|
      invariant cleaned == LongSentences(raw[..i])
      invariant |cleaned| < SentenceCap(maxSentences)
    {
      var s2 := SentenceWords(raw[i]);
      LongSentencesStep(raw, i);
      if s2 != "" && |s2| >= 30 {
        cleaned := cleaned + [s2];
        if |cleaned| >= maxSentences {
          CapReached(raw, i + 1, cleaned, maxSentences);
          return;
        }
      }
      i := i + 1;
    }
    assert raw[..i] == raw;
  }

  /** The sentences kept from a prefix of the pieces start the sentences kept from all of them. */
  lemma {:induction false} LongSentencesPrefix(raw: seq<string>, n: nat)
    requires n <= |raw|
    ensures LongSentences(raw[..n]) <= LongSentences(raw)
    decreases |raw| - n
  {
    if n < |raw| {
      LongSentencesPrefix(raw, n + 1);
      assert raw[..n + 1][..n] == raw[..n];
    } else {
      assert raw[..n] == raw;
    }
  }

  /** Every kept sentence is one trimmed, single-spaced line of at least 30 characters. */
  lemma {:induction false} LongSentencesShape(raw: seq<string>)
    ensures forall k | 0 <= k < |LongSentences(raw)| ::
      var s := LongSentences(raw)[k];
      |s| >= 30 && Trimmed(s) && SingleSpaced(s)
    decreases |raw|
  {
    if raw != [] {
      LongSentencesShape(raw[..|raw| - 1]);
      var ws := Words(raw[|raw| - 1]);
      forall k | 0 <= k < |ws| ensures forall j | 0 <= j < |ws[k]| :: !IsSpace(ws[k][j]) {
        NonSpaceFixed(ws[k]);
      }
      JoinWordsShape(ws);
    }
  }

  /** At most `max(maxSentences, 1)` sentences come back, each trimmed, single-spaced and 30 characters or longer. */
  lemma CleanSentencesBound(text: string, maxSentences: int)
    ensures var cleaned := Take(LongSentences(SplitSentences(Strip(text))), SentenceCap(maxSentences));
      && |cleaned| <= SentenceCap(maxSentences)
      && (maxSentences >= 1 ==> |cleaned| <= maxSentences)
      && forall k | 0 <= k < |cleaned| :: |cleaned[k]| >= 30 && Trimmed(cleaned[k]) && SingleSpaced(cleaned[k])
  {
    LongSentencesShape(SplitSentences(Strip(text)));
  }

  // ---------------------------------------------------------------- safety language

  const SafetyCues: seq<string> := ["toxicity", "adverse event", "adverse events", "pneumonitis", "safety"]

  /** `_has_safety_signal` */
  predicate HasSafetySignal(text: string) {
    ContainsAny(Lower(text), SafetyCues)
  }

  /** "adverse events" adds nothing: any text holding it holds "adverse event". */
  lemma SafetySignalIff(text: string)
    ensures HasSafetySignal(text) <==>
      ContainsAny(Lower(text), ["toxicity", "adverse event", "pneumonitis", "safety"])
  {
    var t := Lower(text);
    var short := ["toxicity", "adverse event", "pneumonitis", "safety"];
    if HasSafetySignal(text) {
      var k :| 0 <= k < |SafetyCues| && Contains(t, SafetyCues[k]);
      if k == 2 {
        var i :| 0 <= i <= |t| && OccursAt(t, "adverse events", i);
        assert "adverse events"[..13] == "adverse event";
        ContainsPrefix("adverse events", 13);
        ContainsInfix(t, "adverse events", "adverse event", i);
        assert Contains(t, short[1]);
      } else if k == 0 {
        assert Contains(t, short[0]);
      } else if k == 1 {
        assert Contains(t, short[1]);
      } else if k == 3 {
        assert Contains(t, short[2]);
      } else {
        assert Contains(t, short[3]);
      }
    }
    if ContainsAny(t, short) {
      var k :| 0 <= k < |short| && Contains(t, short[k]);
      if k == 0 { assert Contains(t, SafetyCues[0]); }
      else if k == 1 { assert Contains(t, SafetyCues[1]); }
      else if k == 2 { assert Contains(t, SafetyCues[3]); }
      else { assert Contains(t, SafetyCues[4]); }
    }
  }

  // ---------------------------------------------------------------- banned phrases

  /** `s` matches the lower-case `pat` at `i`, ignoring the case of `s`. */
  predicate MatchesAt(s: string, pat: string, i: nat) {
    i + |pat| <= |s| && Lower(s[i..i + |pat|]) == pat
  }

  /**
   * `re.sub(re.escape(pat), rep, s, flags=re.IGNORECASE)` for a lower-case `pat`:
   * leftmost, non-overlapping matches, the scan resuming after each replaced match.
   */
  function ReplaceCI(s: string, pat: string, rep: string): string
    requires pat != []
    decreases |s|
  {
    if |s| < |pat| then s
    else if Lower(s[..|pat|]) == pat then rep + ReplaceCI(s[|pat|..], pat, rep)
    else [s[0]] + ReplaceCI(s[1..], pat, rep)
  }

  /** `s` after each of the first `n` banned phrases, in turn, has been replaced by a space. */
  function RemovedUpTo(s: string, n: nat): string
    requires n <= |BannedPhrases|
  {
    if n == 0 then s else ReplaceCI(RemovedUpTo(s, n - 1), BannedPhrases[n - 1], " ")
  }

  /** One pass of `_sanitize_why_text`: every banned phrase removed, whitespace collapsed, ends stripped. */
  function SanitizePass(text: string): string {
    Strip(CollapseSpaces(RemovedUpTo(text, |BannedPhrases|)))
  }

  /** `_sanitize_why_text` as written: a single pass. */
  method SanitizeWhyTextAsWritten(text: string) returns (out: string)
    ensures out == SanitizePass(text)
  {
    out := text;
    for i := 0 to |BannedPhrases|
      invariant out == RemovedUpTo(text, i)
    {
      out := ReplaceCI(out, BannedPhrases[i], " ");
    }
    out := Strip(CollapseSpaces(out));
  }

  /** The lower-cased text holds a banned phrase. */
  predicate HasBanned(s: string) {
    ContainsAny(Lower(s), BannedPhrases)
  }

  lemma LowerSlice(s: string, i: nat, j: nat)
    requires i <= j <= |s|
    ensures Lower(s)[i..j] == Lower(s[i..j])
  {
  }

  /** A case-insensitive match is an occurrence in the lower-cased text. */
  lemma MatchesIffOccurs(s: string, pat: string, i: nat)
    ensures MatchesAt(s, pat, i) <==> OccursAt(Lower(s), pat, i)
  {
    if i + |pat| <= |s| { LowerSlice(s, i, i + |pat|); }
  }

  /** `HasBanned` holds exactly when some banned phrase matches somewhere. */
  lemma HasBannedIff(s: string)
    ensures HasBanned(s) <==>
      exists k, i | 0 <= k < |BannedPhrases| && 0 <= i <= |s| :: MatchesAt(s, BannedPhrases[k], i)
  {
    if HasBanned(s) {
      var k :| 0 <= k < |BannedPhrases| && Contains(Lower(s), BannedPhrases[k]);
      var i :| 0 <= i <= |Lower(s)| && OccursAt(Lower(s), BannedPhrases[k], i);
      MatchesIffOccurs(s, BannedPhrases[k], i);
    }
    if exists k, i | 0 <= k < |BannedPhrases| && 0 <= i <= |s| :: MatchesAt(s, BannedPhrases[k], i) {
      var k, i :| 0 <= k < |BannedPhrases| && 0 <= i <= |s| && MatchesAt(s, BannedPhrases[k], i);
      MatchesIffOccurs(s, BannedPhrases[k], i);
      assert Contains(Lower(s), BannedPhrases[k]);
    }
  }

  /** One character that differs, ignoring case, rules a match out. */
  lemma NoMatchAt(s: string, pat: string, i: nat, j: nat)
    requires j < |pat| && i + j < |s| && LowerChar(s[i + j]) != pat[j]
    ensures !MatchesAt(s, pat, i)
  {
    if i + |pat| <= |s| {
      assert Lower(s[i..i + |pat|])[j] == LowerChar(s[i + j]);
    }
  }

  /** A pattern character missing from the lower-cased text rules out every match. */
  lemma NoMatchLacking(s: string, pat: string, j: nat)
    requires j < |pat| && Lacks(Lower(s), pat[j])
    ensures forall i | 0 <= i <= |s| :: !MatchesAt(s, pat, i)
  {
    forall i | 0 <= i <= |s| ensures !MatchesAt(s, pat, i) {
      if i + j < |s| {
        assert Lower(s)[i + j] == LowerChar(s[i + j]);
        NoMatchAt(s, pat, i, j);
      }
    }
  }

  lemma MatchesShift(s: string, pat: string, i: nat)
    requires |s| >= 1
    ensures MatchesAt(s[1..], pat, i) <==> MatchesAt(s, pat, i + 1)
  {
    if i + |pat| <= |s| - 1 {
      assert s[1..][i..i + |pat|] == s[i + 1..i + 1 + |pat|];
    }
  }

  /** A prefix in which no match starts passes through the replacement unchanged. */
  lemma {:induction false} ReplaceCIKeepsPrefix(a: string, b: string, pat: string, rep: string)
    requires pat != []
    requires forall i | 0 <= i < |a| :: !MatchesAt(a + b, pat, i)
    ensures ReplaceCI(a + b, pat, rep) == a + ReplaceCI(b, pat, rep)
    decreases |a|
  {
    if a == [] {
      assert a + b == b;
    } else {
      var s := a + b;
      if |s| < |pat| {
        assert ReplaceCI(b, pat, rep) == b;
      } else {
        assert !MatchesAt(s, pat, 0);
        assert s[0..|pat|] == s[..|pat|];
        assert s[1..] == a[1..] + b;
        forall i | 0 <= i < |a| - 1 ensures !MatchesAt(a[1..] + b, pat, i) {
          MatchesShift(s, pat, i);
        }
        ReplaceCIKeepsPrefix(a[1..], b, pat, rep);
        assert ReplaceCI(s, pat, rep) == [s[0]] + ReplaceCI(s[1..], pat, rep);
        assert a == [a[0]] + a[1..];
      }
    }
  }

  /** Text in which the pattern never matches is left as it is. */
  lemma ReplaceCIAbsent(s: string, pat: string, rep: string)
    requires pat != []
    requires forall i | 0 <= i <= |s| :: !MatchesAt(s, pat, i)
    ensures ReplaceCI(s, pat, rep) == s
  {
    assert s + [] == s;
    ReplaceCIKeepsPrefix(s, [], pat, rep);
  }

  /** A shorter replacement never lengthens the text, and shortens it when the pattern matches. */
  lemma {:induction false} ReplaceCIShrinks(s: string, pat: string, rep: string)
    requires pat != [] && |rep| < |pat|
    ensures |ReplaceCI(s, pat, rep)| <= |s|
    ensures (exists i | 0 <= i <= |s| :: MatchesAt(s, pat, i)) ==> |ReplaceCI(s, pat, rep)| < |s|
    decreases |s|
  {
    if |s| >= |pat| {
      if Lower(s[..|pat|]) == pat {
        ReplaceCIShrinks(s[|pat|..], pat, rep);
      } else {
        ReplaceCIShrinks(s[1..], pat, rep);
        if exists i | 0 <= i <= |s| :: MatchesAt(s, pat, i) {
          var i :| 0 <= i <= |s| && MatchesAt(s, pat, i);
          assert s[0..|pat|] == s[..|pat|];
          assert i != 0;
          MatchesShift(s, pat, i - 1);
        }
      }
    }
  }

  /** Phrases that do not match leave the text unchanged. */
  lemma {:induction false} RemovedUnchanged(s: string, n: nat)
    requires n <= |BannedPhrases|
    requires forall k, i | 0 <= k < n && 0 <= i <= |s| :: !MatchesAt(s, BannedPhrases[k], i)
    ensures RemovedUpTo(s, n) == s
  {
    if n > 0 {
      RemovedUnchanged(s, n - 1);
      ReplaceCIAbsent(s, BannedPhrases[n - 1], " ");
    }
  }

  /** Removing phrases never lengthens the text, and shortens it when one of them matches. */
  lemma {:induction false} RemovedShrinks(s: string, n: nat)
    requires n <= |BannedPhrases|
    ensures |RemovedUpTo(s, n)| <= |s|
    ensures (exists k, i | 0 <= k < n && 0 <= i <= |s| :: MatchesAt(s, BannedPhrases[k], i)) ==> |RemovedUpTo(s, n)| < |s|
  {
    if n > 0 {
      var p := BannedPhrases[n - 1];
      assert |p| > 1;
      RemovedShrinks(s, n - 1);
      ReplaceCIShrinks(RemovedUpTo(s, n - 1), p, " ");
      if exists k, i | 0 <= k < n && 0 <= i <= |s| :: MatchesAt(s, BannedPhrases[k], i) {
        if !exists k, i | 0 <= k < n - 1 && 0 <= i <= |s| :: MatchesAt(s, BannedPhrases[k], i) {
          RemovedUnchanged(s, n - 1);
        }
      }
    }
  }

  /** A pass shortens text that holds a banned phrase. */
  lemma PassShrinks(s: string)
    requires HasBanned(s)
    ensures |SanitizePass(s)| < |s|
  {
    HasBannedIff(s);
    RemovedShrinks(s, |BannedPhrases|);
  }

  /** A pass leaves one trimmed, single-spaced line. */
  lemma PassShape(s: string)
    ensures Trimmed(SanitizePass(s)) && SingleSpaced(SanitizePass(s))
  {
    var c := CollapseSpaces(RemovedUpTo(s, |BannedPhrases|));
    StripShape(c);
    SingleSpacedStrip(c);
  }

  /** Clean text without banned phrases is a fixed point of a pass. */
  lemma PassFixes(s: string)
    requires !HasBanned(s) && Trimmed(s) && SingleSpaced(s)
    ensures SanitizePass(s) == s
  {
    HasBannedIff(s);
    RemovedUnchanged(s, |BannedPhrases|);
    CollapseOfSingleSpaced(s);
    StripOfTrimmed(s);
  }

  /** Neither of the first two phrases occurs in "mustmust useuse". */
  lemma LeavesBannedFirstTwo(s: string)
    requires s == "mustmust useuse"
    ensures RemovedUpTo(s, 2) == s
  {
    assert Lacks(Lower(s), 'h') && Lacks(Lower(s), 'p');
    NoMatchLacking(s, BannedPhrases[0], 1);
    NoMatchLacking(s, BannedPhrases[1], 0);
    RemovedUnchanged(s, 2);
  }

  /** The third phrase turns "mustmust useuse" into "must use". */
  lemma LeavesBannedThird(s: string)
    requires s == "mustmust useuse"
    ensures ReplaceCI(s, BannedPhrases[2], " ") == "must use"
  {
    var pat := BannedPhrases[2];
    forall i | 0 <= i < 4 ensures !MatchesAt(s, pat, i) {
      if i == 0 { NoMatchAt(s, pat, 0, 4); } else { NoMatchAt(s, pat, i, 0); }
    }
    var a, b := s[..4], s[4..];
    assert s == a + b;
    ReplaceCIKeepsPrefix(a, b, pat, " ");
    ReplaceCIMatchFirst(b);
    assert a + " use" == "must use";
  }

  lemma ReplaceCIMatchFirst(b: string)
    requires b == "must useuse"
    ensures ReplaceCI(b, BannedPhrases[2], " ") == " use"
  {
    assert b[..8] == "must use";
    assert Lower(b[..8]) == BannedPhrases[2];
    assert b[8..] == "use";
  }

  /** The last three phrases leave "must use" as it is. */
  lemma LeavesBannedLastThree(s: string, t: string)
    requires RemovedUpTo(s, 3) == t && t == "must use"
    ensures RemovedUpTo(s, |BannedPhrases|) == t
  {
    assert Lacks(Lower(t), 'r') && Lacks(Lower(t), 'f') && Lacks(Lower(t), 'b');
    NoMatchLacking(t, BannedPhrases[3], 0);
    NoMatchLacking(t, BannedPhrases[4], 0);
    NoMatchLacking(t, BannedPhrases[5], 0);
    ReplaceCIAbsent(t, BannedPhrases[3], " ");
    assert RemovedUpTo(s, 4) == t;
    ReplaceCIAbsent(t, BannedPhrases[4], " ");
    assert RemovedUpTo(s, 5) == t;
    ReplaceCIAbsent(t, BannedPhrases[5], " ");
  }

  /** "must use" is one clean line, and it is a banned phrase. */
  lemma MustUseShape(t: string)
    requires t == "must use"
    ensures SingleSpaced(t) && Trimmed(t) && HasBanned(t)
  {
    assert Lower(t)[0..8] == BannedPhrases[2];
    assert OccursAt(Lower(t), BannedPhrases[2], 0);
  }

  /** Collapsing and stripping leave a clean line as it is. */
  lemma CollapseStripFixed(t: string)
    requires SingleSpaced(t) && Trimmed(t)
    ensures Strip(CollapseSpaces(t)) == t
  {
    CollapseOfSingleSpaced(t);
    StripOfTrimmed(t);
  }

  /**
   * One pass can leave a banned phrase behind: removing "must use" from
   * "mustmust useuse" joins its neighbours into "must use" again.
   */
  lemma SanitizePassLeavesBanned(s: string, t: string)
    requires s == "mustmust useuse" && t == "must use"
    ensures SanitizePass(s) == t
    ensures HasBanned(SanitizePass(s))
  {
    LeavesBannedFirstTwo(s);
    LeavesBannedThird(s);
    LeavesBannedLastThree(s, t);
    MustUseShape(t);
    CollapseStripFixed(t);
  }

  /** Passes repeated until no banned phrase is left. */
  function Resanitized(s: string): (r: string)
    ensures !HasBanned(r)
    decreases |s|
  {
    if HasBanned(s) then PassShrinks(s); Resanitized(SanitizePass(s)) else s
  }

  /** The corrected `_sanitize_why_text`: passes until the text holds no banned phrase. */
  function Sanitized(text: string): string {
    Resanitized(SanitizePass(text))
  }

  /** The corrected `_sanitize_why_text`. */
  method SanitizeWhyText(text: string) returns (out: string)
    ensures out == Sanitized(text)
  {
    out := SanitizeWhyTextAsWritten(text);
    while HasBanned(out)
      invariant Resanitized(out) == Sanitized(text)
      decreases |out|
    {
      PassShrinks(out);
      out := SanitizeWhyTextAsWritten(out);
    }
  }

  lemma {:induction false} ResanitizedShape(s: string)
    requires Trimmed(s) && SingleSpaced(s)
    ensures Trimmed(Resanitized(s)) && SingleSpaced(Resanitized(s))
    decreases |s|
  {
    if HasBanned(s) {
      PassShrinks(s);
      PassShape(s);
      ResanitizedShape(SanitizePass(s));
    }
  }

  /**
   * The corrected sanitiser leaves one trimmed, single-spaced line with no banned
   * phrase; it agrees with the single pass whenever that pass already succeeds,
   * and sanitising twice changes nothing.
   */
  lemma SanitizedSpec(text: string)
    ensures !HasBanned(Sanitized(text))
    ensures Trimmed(Sanitized(text)) && SingleSpaced(Sanitized(text))
    ensures !HasBanned(SanitizePass(text)) ==> Sanitized(text) == SanitizePass(text)
    ensures Sanitized(Sanitized(text)) == Sanitized(text)
  {
    PassShape(text);
    ResanitizedShape(SanitizePass(text));
    var r := Sanitized(text);
    PassFixes(r);
  }

  // ---------------------------------------------------------------- why it matters

  /**
   * At each position of `h` the character is not `a`, or the next one is not `b`,
   * ignoring case: no match of a phrase starting "ab" can start inside `h`.
   */
  predicate ClearOfPair(h: string, a: char, b: char) {
    forall i | 0 <= i < |h| :: LowerChar(h[i]) != a || (i + 1 < |h| && LowerChar(h[i + 1]) != b)
  }

  predicate ClearOf(h: string, pat: string) {
    |pat| >= 2 && ClearOfPair(h, pat[0], pat[1])
  }

  /** `h` is clear of every banned phrase. */
  predicate ClearOfBanned(h: string) {
    forall k | 0 <= k < |BannedPhrases| :: ClearOf(h, BannedPhrases[k])
  }

  lemma ClearOfPairConcat(h1: string, h2: string, a: char, b: char)
    requires ClearOfPair(h1, a, b) && ClearOfPair(h2, a, b)
    ensures ClearOfPair(h1 + h2, a, b)
  {
    var h := h1 + h2;
    forall i | 0 <= i < |h| ensures LowerChar(h[i]) != a || (i + 1 < |h| && LowerChar(h[i + 1]) != b) {
      if i < |h1| {
        assert h[i] == h1[i];
        if i + 1 < |h1| { assert h[i + 1] == h1[i + 1]; }
      } else {
        assert h[i] == h2[i - |h1|];
        if i + 1 < |h| { assert h[i + 1] == h2[i + 1 - |h1|]; }
      }
    }
  }

  /** Clearance from the first two letters of each banned phrase. */
  predicate ClearOfAllPairs(h: string) {
    ClearOfPair(h, 's', 'h') && ClearOfPair(h, 'p', 'r') && ClearOfPair(h, 'm', 'u')
    && ClearOfPair(h, 'r', 'e') && ClearOfPair(h, 'f', 'i') && ClearOfPair(h, 'b', 'e')
  }

  lemma ClearOfAllPairsBanned(h: string)
    requires ClearOfAllPairs(h)
    ensures ClearOfBanned(h)
  {
    forall k | 0 <= k < |BannedPhrases| ensures ClearOf(h, BannedPhrases[k]) {
      var p := BannedPhrases[k];
      if k == 0 { assert p[0] == 's' && p[1] == 'h'; }
      else if k == 1 { assert p[0] == 'p' && p[1] == 'r'; }
      else if k == 2 { assert p[0] == 'm' && p[1] == 'u'; }
      else if k == 3 { assert p[0] == 'r' && p[1] == 'e'; }
      else if k == 4 { assert p[0] == 'f' && p[1] == 'i'; }
      else { assert p[0] == 'b' && p[1] == 'e'; }
    }
  }

  lemma ClearOfAllPairsConcat(h1: string, h2: string)
    requires ClearOfAllPairs(h1) && ClearOfAllPairs(h2)
    ensures ClearOfAllPairs(h1 + h2)
  {
    ClearOfPairConcat(h1, h2, 's', 'h');
    ClearOfPairConcat(h1, h2, 'p', 'r');
    ClearOfPairConcat(h1, h2, 'm', 'u');
    ClearOfPairConcat(h1, h2, 'r', 'e');
    ClearOfPairConcat(h1, h2, 'f', 'i');
    ClearOfPairConcat(h1, h2, 'b', 'e');
  }

  lemma ClearOfNoMatch(h: string, x: string, pat: string)
    requires ClearOf(h, pat)
    ensures forall i | 0 <= i < |h| :: !MatchesAt(h + x, pat, i)
  {
    forall i | 0 <= i < |h| ensures !MatchesAt(h + x, pat, i) {
      assert (h + x)[i] == h[i];
      if LowerChar(h[i]) != pat[0] {
        NoMatchAt(h + x, pat, i, 0);
      } else {
        assert (h + x)[i + 1] == h[i + 1];
        NoMatchAt(h + x, pat, i, 1);
      }
    }
  }

  /** Text clear of every banned phrase holds none. */
  lemma ClearOfBannedNone(h: string)
    requires ClearOfBanned(h)
    ensures !HasBanned(h)
  {
    assert h + [] == h;
    forall k | 0 <= k < |BannedPhrases| ensures forall i | 0 <= i <= |h| :: !MatchesAt(h, BannedPhrases[k], i) {
      ClearOfNoMatch(h, [], BannedPhrases[k]);
    }
    HasBannedIff(h);
  }

  // The fixed texts are checked one letter pair at a time.

  lemma WhyHeadClearShouldUse(h: string)
    requires h == "Why it matters:"
    ensures ClearOfPair(h, 's', 'h')
  {
  }

  lemma WhyHeadClearPreferredRegimen(h: string)
    requires h == "Why it matters:"
    ensures ClearOfPair(h, 'p', 'r')
  {
  }

  lemma WhyHeadClearMustUse(h: string)
    requires h == "Why it matters:"
    ensures ClearOfPair(h, 'm', 'u')
  {
  }

  lemma WhyHeadClearRecommendUsing(h: string)
    requires h == "Why it matters:"
    ensures ClearOfPair(h, 'r', 'e')
  {
  }

  lemma WhyHeadClearFirstLineChoice(h: string)
    requires h == "Why it matters:"
    ensures ClearOfPair(h, 'f', 'i')
  {
  }

  lemma WhyHeadClearBestTreatment(h: string)
    requires h == "Why it matters:"
    ensures ClearOfPair(h, 'b', 'e')
  {
  }

  lemma NoInfoValueClearShouldUse(h: string)
    requires h == "Not enough info in abstract."
    ensures ClearOfPair(h, 's', 'h')
  {
  }

  lemma NoInfoValueClearPreferredRegimen(h: string)
    requires h == "Not enough info in abstract."
    ensures ClearOfPair(h, 'p', 'r')
  {
  }

  lemma NoInfoValueClearMustUse(h: string)
    requires h == "Not enough info in abstract."
    ensures ClearOfPair(h, 'm', 'u')
  {
  }

  lemma NoInfoValueClearRecommendUsing(h: string)
    requires h == "Not enough info in abstract."
    ensures ClearOfPair(h, 'r', 'e')
  {
  }

  lemma NoInfoValueClearFirstLineChoice(h: string)
    requires h == "Not enough info in abstract."
    ensures ClearOfPair(h, 'f', 'i')
  {
  }

  lemma NoInfoValueClearBestTreatment(h: string)
    requires h == "Not enough info in abstract."
    ensures ClearOfPair(h, 'b', 'e')
  {
  }

  lemma WhyHeadClearAll(h: string)
    requires h == "Why it matters:"
    ensures ClearOfAllPairs(h)
  {
    WhyHeadClearShouldUse(h);
    WhyHeadClearPreferredRegimen(h);
    WhyHeadClearMustUse(h);
    WhyHeadClearRecommendUsing(h);
    WhyHeadClearFirstLineChoice(h);
    WhyHeadClearBestTreatment(h);
  }

  lemma NoInfoValueClearAll(h: string)
    requires h == "Not enough info in abstract."
    ensures ClearOfAllPairs(h)
  {
    NoInfoValueClearShouldUse(h);
    NoInfoValueClearPreferredRegimen(h);
    NoInfoValueClearMustUse(h);
    NoInfoValueClearRecommendUsing(h);
    NoInfoValueClearFirstLineChoice(h);
    NoInfoValueClearBestTreatment(h);
  }

  lemma SpaceClearAll(h: string)
    requires h == " "
    ensures ClearOfAllPairs(h)
  {
  }

  /** The fixed "why it matters" line holds no banned phrase. */
  lemma NoInfoWhyClear()
    ensures !HasBanned(NoInfoWhy)
  {
    WhyHeadClearAll(WhyHead);
    SpaceClearAll(" ");
    NoInfoValueClearAll(NoInfoValue);
    ClearOfAllPairsConcat(WhyHead, " ");
    ClearOfAllPairsConcat(WhyHead + " ", NoInfoValue);
    ClearOfAllPairsBanned(NoInfoWhy);
    ClearOfBannedNone(NoInfoWhy);
  }

  /** The fixed "why it matters" line is the label and a one-line value. */
  lemma NoInfoWhyLine()
    ensures NoInfoWhy == Llm.RequiredKeys[6] + ": " + NoInfoValue && NoLineBreak(NoInfoValue)
  {
    WhyHeadLabel(WhyHead);
    assert Llm.RequiredKeys[6] + ": " == WhyHead + " ";
    assert Plain(NoInfoValue);
    PlainText(NoInfoValue);
  }

  /** The fixed "why it matters" line holds no banned phrase, and it is the label and a one-line value. */
  lemma NoInfoWhyClean()
    ensures !HasBanned(NoInfoWhy)
    ensures NoInfoWhy == Llm.RequiredKeys[6] + ": " + NoInfoValue && NoLineBreak(NoInfoValue)
  {
    NoInfoWhyClear();
    NoInfoWhyLine();
  }

  lemma WhyHeadLabel(h: string)
    requires h == WhyHead
    ensures h == Llm.RequiredKeys[6] + ":"
  {
  }

  lemma WhyHeadLower(h: string)
    requires h == WhyHead
    ensures Lower(h) == "why it matters:"
  {
  }

  lemma WhyHeadShape(h: string)
    requires h == WhyHead
    ensures Trimmed(h) && SingleSpaced(h)
  {
  }

  /** A head clear of the banned phrases survives their removal. */
  lemma {:induction false} RemovedKeepsHead(h: string, x: string, n: nat)
    requires n <= |BannedPhrases| && ClearOfBanned(h)
    ensures RemovedUpTo(h + x, n) == h + RemovedUpTo(x, n)
  {
    if n > 0 {
      RemovedKeepsHead(h, x, n - 1);
      ClearOfNoMatch(h, RemovedUpTo(x, n - 1), BannedPhrases[n - 1]);
      ReplaceCIKeepsPrefix(h, RemovedUpTo(x, n - 1), BannedPhrases[n - 1], " ");
    }
  }

  /** Removal keeps a leading space in front: no banned phrase starts with one. */
  lemma {:induction false} RemovedKeepsLead(x: string, n: nat)
    requires n <= |BannedPhrases| && (x == [] || x[0] == ' ')
    ensures var r := RemovedUpTo(x, n); r == [] || r[0] == ' '
  {
    if n > 0 {
      RemovedKeepsLead(x, n - 1);
      var y := RemovedUpTo(x, n - 1);
      var pat := BannedPhrases[n - 1];
      assert pat[0] != ' ';
      if y != [] && |y| >= |pat| {
        assert Lower(y[..|pat|])[0] == ' ';
      }
    }
  }

  /** Collapsing whitespace leaves a single-spaced head that ends in a non-space as it is. */
  lemma {:induction false} CollapseKeepsPrefix(q: string, y: string)
    requires SingleSpaced(q) && (q == [] || !IsSpace(q[|q| - 1]))
    ensures CollapseSpaces(q + y) == q + CollapseSpaces(y)
    decreases |q|
  {
    if q == [] {
      assert q + y == y;
    } else {
      SingleSpacedSlice(q, 1, |q|);
      CollapseStep(q, y);
      CollapseKeepsPrefix(q[1..], y);
      assert q == [q[0]] + q[1..];
    }
  }

  /** One step of collapsing inside a single-spaced head that ends in a non-space. */
  lemma CollapseStep(q: string, y: string)
    requires q != [] && SingleSpaced(q) && !IsSpace(q[|q| - 1])
    ensures CollapseSpaces(q + y) == [q[0]] + CollapseSpaces(q[1..] + y)
  {
    var s := q + y;
    assert s[0] == q[0];
    assert s[1..] == q[1..] + y;
    if IsSpace(q[0]) {
      assert |q| >= 2 && !IsSpace(q[1]);
      LeadOneSpace(s);
    }
  }

  lemma LeadOneSpace(s: string)
    requires |s| >= 2 && IsSpace(s[0]) && !IsSpace(s[1])
    ensures LStrip(s) == s[1..]
  {
    assert !IsSpace(s[1..][0]);
    assert LeadSpaces(s[1..]) == 0;
  }

  lemma {:induction false} TrailSpacesAfter(q: string, z: string)
    requires q != [] && !IsSpace(q[|q| - 1])
    ensures TrailSpaces(q + z) == TrailSpaces(z)
    decreases |z|
  {
    if z == [] {
      assert q + z == q;
    } else {
      var s := q + z;
      assert s[|s| - 1] == z[|z| - 1];
      assert s[..|s| - 1] == q + z[..|z| - 1];
      TrailSpacesAfter(q, z[..|z| - 1]);
    }
  }

  /** Stripping text that starts with a trimmed head only strips its end. */
  lemma StripAfterHead(q: string, z: string)
    requires q != [] && Trimmed(q)
    ensures Strip(q + z) == q + RStrip(z)
  {
    var s := q + z;
    assert s[0] == q[0];
    assert LStrip(s) == s;
    TrailSpacesAfter(q, z);
    assert s[..|s| - TrailSpaces(z)] == q + z[..|z| - TrailSpaces(z)];
  }

  /** A head that is clean, trimmed and clear of every banned phrase. */
  predicate KeptHead(h: string) {
    h != [] && Trimmed(h) && SingleSpaced(h) && ClearOfBanned(h)
  }

  /** What one pass makes of the text after a kept head. */
  function PassTail(w: string): string {
    RStrip(CollapseSpaces(RemovedUpTo(w, |BannedPhrases|)))
  }

  /** A pass keeps the head and changes only what follows it, which still starts with a space. */
  lemma PassKeepsHead(h: string, w: string)
    requires KeptHead(h) && (w == [] || w[0] == ' ')
    ensures SanitizePass(h + w) == h + PassTail(w)
    ensures PassTail(w) == [] || PassTail(w)[0] == ' '
  {
    var y := RemovedUpTo(w, |BannedPhrases|);
    RemovedKeepsHead(h, w, |BannedPhrases|);
    RemovedKeepsLead(w, |BannedPhrases|);
    CollapseKeepsPrefix(h, y);
    StripAfterHead(h, CollapseSpaces(y));
  }

  /** Repeated passes keep the head too. */
  lemma {:induction false} ResanitizedKeepsHead(h: string, w: string)
    requires KeptHead(h) && (w == [] || w[0] == ' ')
    ensures exists w2 :: Resanitized(h + w) == h + w2 && (w2 == [] || w2[0] == ' ')
    decreases |w|
  {
    if HasBanned(h + w) {
      PassKeepsHead(h, w);
      PassShrinks(h + w);
      ResanitizedKeepsHead(h, PassTail(w));
    } else {
      assert Resanitized(h + w) == h + w;
    }
  }

  /** The signals of `_build_why_it_matters`, in the order they are collected. */
  function Signals(status: string, study: string, endpoints: string, population: string,
                   keyFinding: string, text: string): seq<string> {
    ExtractFields.When(study != NotStated, "Study signal: " + Lower(study) + ".")
    + ExtractFields.When(endpoints != NotStated, "Reported endpoints include " + endpoints + ".")
    + ExtractFields.When(population != NotStated, "Population is described in the abstract.")
    + ExtractFields.When(status != "", "Trial status update: " + status + ".")
    + ExtractFields.When(HasSafetySignal(text), "Safety-related language is present and may affect monitoring context.")
    + ExtractFields.When(keyFinding !in {NoKeyFinding, "Key finding: No abstract available"},
        "The abstract reports a directional result that may guide evidence tracking.")
  }

  /** The "why it matters" line for the collected signals: the first two, sanitised. */
  function WhyFrom(signals: seq<string>): string {
    if signals == [] then NoInfoWhy
    else Checked(Sanitized(WhyHead + " " + Join(" ", Take(signals, 2))))
  }

  /** The final check: a line left empty, or with nothing after its head, becomes the fixed line. */
  function Checked(why: string): string {
    if Strip(why) == "" || Lower(Strip(why)) == "why it matters:" then NoInfoWhy else why
  }

  /** `_build_why_it_matters`, with the sanitiser corrected. */
  function BuildWhyItMatters(item: Item, study: string, endpoints: string, population: string,
                             keyFinding: string, text: string): string {
    WhyFrom(Signals(CleanText(OrEmpty(item.status)), study, endpoints, population, keyFinding, text))
  }

  /** Sanitising a line that starts with a kept head keeps the head; the line is clean. */
  lemma SanitizedKeepsHead(h: string, w: string)
    requires KeptHead(h) && (w == [] || w[0] == ' ')
    ensures exists w2 :: Sanitized(h + w) == h + w2 && (w2 == [] || w2[0] == ' ')
    ensures !HasBanned(Sanitized(h + w))
    ensures Trimmed(Sanitized(h + w)) && SingleSpaced(Sanitized(h + w))
  {
    PassKeepsHead(h, w);
    ResanitizedKeepsHead(h, PassTail(w));
    SanitizedSpec(h + w);
  }

  /** A clean line after the head passes the final check with a value after the head. */
  lemma CheckedShape(why: string, w2: string)
    requires why == WhyHead + w2 && (w2 == [] || w2[0] == ' ')
    requires Trimmed(why) && SingleSpaced(why) && !HasBanned(why)
    ensures !HasBanned(Checked(why))
    ensures exists v :: Checked(why) == Llm.RequiredKeys[6] + ": " + v && NoLineBreak(v)
  {
    NoInfoWhyClean();
    if w2 != [] {
      CheckedKeeps(why, w2);
    } else {
      CheckedHeadOnly(why);
    }
  }

  lemma CheckedHeadOnly(why: string)
    requires why == WhyHead
    ensures Checked(why) == NoInfoWhy
  {
    WhyHeadLower(WhyHead);
    WhyHeadShape(WhyHead);
    StripOfTrimmed(why);
  }

  lemma CheckedKeeps(why: string, w2: string)
    requires why == WhyHead + w2 && w2 != [] && w2[0] == ' '
    requires Trimmed(why) && SingleSpaced(why)
    ensures Checked(why) == why
    ensures why == Llm.RequiredKeys[6] + ": " + w2[1..] && NoLineBreak(w2[1..])
  {
    WhyHeadLabel(WhyHead);
    CheckedLong(why);
    LabelledTail(why, WhyHead, Llm.RequiredKeys[6], w2);
  }

  /** A trimmed text longer than the bare head is never mistaken for it. */
  lemma CheckedLong(why: string)
    requires Trimmed(why) && |why| > 15
    ensures Checked(why) == why
  {
    StripOfTrimmed(why);
    assert |Lower(Strip(why))| == |why|;
  }

  /** A single-spaced `key: value` line, read back as its label and its one-line value. */
  lemma LabelledTail(why: string, head: string, key: string, w2: string)
    requires why == head + w2 && head == key + ":" && w2 != [] && w2[0] == ' ' && SingleSpaced(why)
    ensures why == key + ": " + w2[1..] && NoLineBreak(w2[1..])
  {
    var v := w2[1..];
    assert w2 == " " + v;
    SingleSpacedNoLineBreak(why);
    assert forall j | 0 <= j < |v| :: v[j] == why[j + |head| + 1];
  }

  /**
   * The "why it matters" line is one labelled line, "Why it matters: " and a value
   * without line breaks, and it holds no banned phrase.
   */
  lemma WhyShape(signals: seq<string>)
    ensures !HasBanned(WhyFrom(signals))
    ensures exists v :: WhyFrom(signals) == Llm.RequiredKeys[6] + ": " + v && NoLineBreak(v)
  {
    NoInfoWhyClean();
    if signals != [] {
      var w := " " + Join(" ", Take(signals, 2));
      WhyHeadClearAll(WhyHead);
      ClearOfAllPairsBanned(WhyHead);
      WhyHeadShape(WhyHead);
      assert WhyHead + " " + Join(" ", Take(signals, 2)) == WhyHead + w;
      SanitizedKeepsHead(WhyHead, w);
      var why := Sanitized(WhyHead + w);
      var w2 :| why == WhyHead + w2 && (w2 == [] || w2[0] == ' ');
      CheckedShape(why, w2);
    }
  }

  // ---------------------------------------------------------------- the summary

  /**
   * What the population and intervention searches found in the cleaned text:
   * group 1 of each population pattern's first match, in pattern order, and of the
   * "compared with" and "received" patterns.
   */
  datatype Matches = Matches(population: seq<Option<string>>, compared: Option<string>, received: Option<string>)

  /** A search over one line finds matches without line breaks. */
  predicate OneLineMatches(m: Matches) {
    && (forall k | 0 <= k < |m.population| :: m.population[k].Some? ==> NoLineBreak(m.population[k].value))
    && (m.compared.Some? ==> NoLineBreak(m.compared.value))
    && (m.received.Some? ==> NoLineBreak(m.received.value))
  }

  /** The text summarised: the full text when there is one, else the abstract, cleaned. */
  function SourceText(item: Item): string {
    CleanText(if Truthy(item.fullTextText) then item.fullTextText.value else OrEmpty(item.abstractOrText))
  }

  /** The "Supporting snippets" value: the first three snippets that clean to something, joined by " | ". */
  function SnippetsText(snippets: seq<string>): string {
    var joined := Join(" | ", Llm.CleanedSnippets(Take(snippets, 3)));
    if joined == "" then "Not available" else joined
  }

  /** The six labelled lines, in label order, then the why line. */
  function SummaryLines(values: seq<string>, why: string): (r: seq<string>)
    requires |values| == 6
    ensures |r| == 7
  {
    seq(6, i requires 0 <= i < 6 => Llm.RequiredKeys[i] + ": " + values[i]) + [why]
  }

  /** The values of the summary of a record without text. */
  const NoTextValues: seq<string> := [NotStated, NotStated, NotStated, NotStated, "No abstract available", "Not available"]

  /** The deterministic summary of `summarize_item`. */
  function Deterministic(item: Item, m: Matches): string {
    var text := SourceText(item);
    if text == "" then Join("\n", SummaryLines(NoTextValues, NoInfoWhy))
    else TextSummary(item, m, text)
  }

  /** The deterministic summary of a record whose cleaned text is `text`. */
  function TextSummary(item: Item, m: Matches, text: string): string {
    Join("\n", SummaryLines(TextValues(item, m, text), TextWhy(item, m, text)))
  }

  /** The six values of the summary of a record whose cleaned text is `text`. */
  function TextValues(item: Item, m: Matches, text: string): (r: seq<string>)
    ensures |r| == 6
  {
    [StudyType(text), Population(m.population), Intervention(m.compared, m.received),
     EndpointsText(Lower(text)), KeyFinding(text), SnippetsText(item.supportSnippets)]
  }

  /** The why line of the summary of a record whose cleaned text is `text`. */
  function TextWhy(item: Item, m: Matches, text: string): string {
    BuildWhyItMatters(item, StudyType(text), EndpointsText(Lower(text)), Population(m.population), KeyFinding(text), text)
  }

  /**
   * `summarize_item`, with the language model's reply as a parameter: the deterministic
   * summary, or its polished form when polishing is asked for and the polish is accepted.
   */
  function SummarizeItem(item: Item, llmPolish: bool, m: Matches, apiKey: string, reply: Option<string>): string {
    var summary := Deterministic(item, m);
    if SourceText(item) == "" || !llmPolish then summary
    else PolishedOr(Llm.PolishSummaryStrict(summary, SourceText(item), item.supportSnippets, apiKey, reply), summary)
  }

  /** `polished or summary` */
  function PolishedOr(polished: Option<string>, summary: string): string {
    if polished.Some? && polished.value != "" then polished.value else summary
  }

  // ---------------------------------------------------------------- one line per field

  lemma NoLineBreakJoin(sep: string, xs: seq<string>)
    requires NoLineBreak(sep) && forall k | 0 <= k < |xs| :: NoLineBreak(xs[k])
    ensures NoLineBreak(Join(sep, xs))
    decreases |xs|
  {
    if |xs| > 1 {
      NoLineBreakJoin(sep, xs[1..]);
      Llm.NoLineBreakConcat(xs[0], sep);
      Llm.NoLineBreakConcat(xs[0] + sep, Join(sep, xs[1..]));
    }
  }

  lemma {:induction false} CleanedSnippetsOneLine(snippets: seq<string>)
    ensures forall k | 0 <= k < |Llm.CleanedSnippets(snippets)| :: NoLineBreak(Llm.CleanedSnippets(snippets)[k])
    decreases |snippets|
  {
    if snippets != [] {
      CleanTextShape(snippets[0]);
      CleanedSnippetsOneLine(snippets[1..]);
    }
  }

  /** The snippets value is one line. */
  lemma SnippetsTextOneLine(snippets: seq<string>)
    ensures NoLineBreak(SnippetsText(snippets))
  {
    CleanedSnippetsOneLine(Take(snippets, 3));
    FixedOneLine(" | ");
    NoLineBreakJoin(" | ", Llm.CleanedSnippets(Take(snippets, 3)));
    FixedOneLine("Not available");
  }

  lemma FixedOneLine(s: string)
    requires s == " | " || s == "Not available"
    ensures NoLineBreak(s)
  {
    assert Plain(s) || s == " | ";
  }

  /** Each shown endpoint name is one line. */
  lemma EndpointNamesOneLine()
    ensures forall k | 0 <= k < |EndpointTokens| :: NoLineBreak(EndpointTokens[k].1)
  {
    assert Plain(EndpointTokens[0].1);
    assert Plain(EndpointTokens[1].1);
    assert Plain(EndpointTokens[2].1);
    assert Plain(EndpointTokens[3].1);
    assert Plain(EndpointTokens[4].1);
    assert Plain(EndpointTokens[5].1);
    assert Plain(EndpointTokens[6].1);
    forall k | 0 <= k < |EndpointTokens| ensures NoLineBreak(EndpointTokens[k].1) {
      PlainText(EndpointTokens[k].1);
    }
  }

  /** The endpoints value is one line. */
  lemma EndpointsOneLine(t: string)
    ensures NoLineBreak(EndpointsText(t))
  {
    FallbacksPlain();
    var found := TokensFound(t, |EndpointTokens|);
    if found != [] {
      TokensFoundSpec(t, |EndpointTokens|);
      EndpointNamesOneLine();
      var names := SortedSet(found);
      forall k | 0 <= k < |names| ensures NoLineBreak(names[k]) {
        assert names[k] in found;
      }
      assert NoLineBreak(", ");
      NoLineBreakJoin(", ", names);
    }
  }

  /** The population value is one line when the matches are. */
  lemma PopulationOneLine(matches: seq<Option<string>>)
    requires forall k | 0 <= k < |matches| :: matches[k].Some? ==> NoLineBreak(matches[k].value)
    ensures NoLineBreak(Population(matches))
  {
    FallbacksPlain();
    match FirstMatch(matches, 0)
    case Some(c) => NoLineBreakStrip(c);
    case None =>
  }

  /** The intervention value is one line when the matches are. */
  lemma InterventionOneLine(compared: Option<string>, received: Option<string>)
    requires compared.Some? ==> NoLineBreak(compared.value)
    requires received.Some? ==> NoLineBreak(received.value)
    ensures NoLineBreak(Intervention(compared, received))
  {
    FallbacksPlain();
    if compared.Some? { NoLineBreakStrip(compared.value); }
    if received.Some? { NoLineBreakStrip(received.value); }
  }

  /**
   * Six one-line values under their labels and a labelled why line make a text of
   * exactly those seven lines, which passes the structured-summary check.
   */
  lemma SummaryLinesValid(values: seq<string>, why: string)
    requires |values| == 6 && forall i | 0 <= i < 6 :: NoLineBreak(values[i])
    requires exists v :: why == Llm.RequiredKeys[6] + ": " + v && NoLineBreak(v)
    ensures SplitLines(Join("\n", SummaryLines(values, why))) == SummaryLines(values, why)
    ensures Llm.IsValidStructuredSummary(Join("\n", SummaryLines(values, why)))
  {
    var v :| why == Llm.RequiredKeys[6] + ": " + v && NoLineBreak(v);
    var vals := values + [v];
    var lines := SummaryLines(values, why);
    assert forall i | 0 <= i < 7 :: lines[i] == Llm.RequiredKeys[i] + ": " + vals[i];
    Llm.RequiredKeysPlain();
    assert NoLineBreak(": ");
    forall i | 0 <= i < 7 ensures lines[i] != [] && NoLineBreak(lines[i]) {
      Llm.PlainLabelClean(Llm.RequiredKeys[i]);
      Llm.NoLineBreakConcat(Llm.RequiredKeys[i], ": ");
      Llm.NoLineBreakConcat(Llm.RequiredKeys[i] + ": ", vals[i]);
    }
    SplitLinesJoin(lines);
    var text := Join("\n", lines);
    Llm.ParsedKeys(lines, |lines|);
    forall i | 0 <= i < 7 ensures Llm.RequiredKeys[i] in Llm.Parsed(text) {
      Llm.FormattedKey(Llm.RequiredKeys[i], vals[i]);
      assert ':' in lines[i] && Llm.KeyOf(lines[i]) == Llm.RequiredKeys[i];
    }
  }

  lemma NoTextValuesPlain()
    ensures forall i | 0 <= i < 6 :: !HasNumber(NoTextValues[i]) && NoLineBreak(NoTextValues[i])
  {
    FallbacksPlain();
    assert Plain("No abstract available");
    PlainText("No abstract available");
    assert Plain("Not available");
    PlainText("Not available");
  }

  /** What `DeterministicSpec` states of a summary `d`. */
  predicate SummaryShape(d: string, values: seq<string>, why: string) {
    && |values| == 6
    && d == Join("\n", SummaryLines(values, why))
    && SplitLines(d) == SummaryLines(values, why)
    && Llm.IsValidStructuredSummary(d)
    && !HasNumber(values[0]) && !HasNumber(values[1]) && !HasNumber(values[2]) && !HasNumber(values[4])
    && !HasBanned(why)
  }

  lemma NoTextShape()
    ensures SummaryShape(Join("\n", SummaryLines(NoTextValues, NoInfoWhy)), NoTextValues, NoInfoWhy)
  {
    NoInfoWhyClean();
    NoTextValuesPlain();
    SummaryLinesValid(NoTextValues, NoInfoWhy);
  }

  lemma StudyValueFacts(item: Item, m: Matches, text: string)
    requires OneLineMatches(m) && NoLineBreak(text)
    ensures NoLineBreak(TextValues(item, m, text)[0]) && !HasNumber(TextValues(item, m, text)[0])
  {
    StudyTypePlain(text);
  }

  lemma PopulationValueFacts(item: Item, m: Matches, text: string)
    requires OneLineMatches(m) && NoLineBreak(text)
    ensures NoLineBreak(TextValues(item, m, text)[1]) && !HasNumber(TextValues(item, m, text)[1])
  {
    PopulationOneLine(m.population);
  }

  lemma InterventionValueFacts(item: Item, m: Matches, text: string)
    requires OneLineMatches(m) && NoLineBreak(text)
    ensures NoLineBreak(TextValues(item, m, text)[2]) && !HasNumber(TextValues(item, m, text)[2])
  {
    InterventionOneLine(m.compared, m.received);
  }

  lemma EndpointsValueFacts(item: Item, m: Matches, text: string)
    requires OneLineMatches(m) && NoLineBreak(text)
    ensures NoLineBreak(TextValues(item, m, text)[3])
  {
    EndpointsOneLine(Lower(text));
  }

  lemma KeyFindingValueFacts(item: Item, m: Matches, text: string)
    requires OneLineMatches(m) && NoLineBreak(text)
    ensures NoLineBreak(TextValues(item, m, text)[4]) && !HasNumber(TextValues(item, m, text)[4])
  {
    KeyFindingPlain(text);
  }

  lemma SnippetsValueFacts(item: Item, m: Matches, text: string)
    requires OneLineMatches(m) && NoLineBreak(text)
    ensures NoLineBreak(TextValues(item, m, text)[5])
  {
    SnippetsTextOneLine(item.supportSnippets);
  }

  /** Each value is one line; the study type, population, intervention and key finding state no number. */
  lemma TextValuesFacts(item: Item, m: Matches, text: string)
    requires OneLineMatches(m) && NoLineBreak(text)
    ensures var values := TextValues(item, m, text);
      && (forall i | 0 <= i < 6 :: NoLineBreak(values[i]))
      && !HasNumber(values[0]) && !HasNumber(values[1]) && !HasNumber(values[2]) && !HasNumber(values[4])
  {
    var values := TextValues(item, m, text);
    StudyValueFacts(item, m, text);
    PopulationValueFacts(item, m, text);
    InterventionValueFacts(item, m, text);
    EndpointsValueFacts(item, m, text);
    KeyFindingValueFacts(item, m, text);
    SnippetsValueFacts(item, m, text);
    forall i | 0 <= i < 6 ensures NoLineBreak(values[i]) {
      if i == 0 {
      } else if i == 1 {
      } else if i == 2 {
      } else if i == 3 {
      } else if i == 4 {
      } else {
      }
    }
  }

  lemma TextSummaryShape(item: Item, m: Matches, text: string)
    requires OneLineMatches(m) && NoLineBreak(text)
    ensures SummaryShape(TextSummary(item, m, text), TextValues(item, m, text), TextWhy(item, m, text))
  {
    TextValuesFacts(item, m, text);
    WhyShape(Signals(CleanText(OrEmpty(item.status)), StudyType(text), EndpointsText(Lower(text)),
                     Population(m.population), KeyFinding(text), text));
    SummaryLinesValid(TextValues(item, m, text), TextWhy(item, m, text));
  }

  /**
   * The deterministic summary is seven labelled lines in label order and passes the
   * structured-summary check; the study type, population, intervention and key finding
   * state no number, and the why line holds no banned phrase. Without text it is the
   * fixed summary.
   */
  lemma DeterministicSpec(item: Item, m: Matches)
    requires OneLineMatches(m)
    ensures exists values, why :: SummaryShape(Deterministic(item, m), values, why)
    ensures Llm.IsValidStructuredSummary(Deterministic(item, m))
    ensures SourceText(item) == "" ==> SummaryShape(Deterministic(item, m), NoTextValues, NoInfoWhy)
  {
    var text := SourceText(item);
    if text == "" {
      NoTextShape();
      assert Deterministic(item, m) == Join("\n", SummaryLines(NoTextValues, NoInfoWhy));
    } else {
      CleanTextShape(if Truthy(item.fullTextText) then item.fullTextText.value else OrEmpty(item.abstractOrText));
      TextSummaryShape(item, m, text);
      assert Deterministic(item, m) == TextSummary(item, m, text);
      assert SummaryShape(Deterministic(item, m), TextValues(item, m, text), TextWhy(item, m, text));
    }
  }

  /** Every summary passes the structured-summary check, polished or not. */
  lemma SummarizeItemValid(item: Item, llmPolish: bool, m: Matches, apiKey: string, reply: Option<string>)
    requires OneLineMatches(m)
    ensures Llm.IsValidStructuredSummary(SummarizeItem(item, llmPolish, m, apiKey, reply))
  {
    DeterministicSpec(item, m);
    PolishKeepsValid(Deterministic(item, m), SourceText(item), item.supportSnippets, apiKey, reply);
  }

  /** Polishing a valid summary yields a valid summary, whether the polish is accepted or not. */
  lemma PolishKeepsValid(summary: string, text: string, snippets: seq<string>, apiKey: string, reply: Option<string>)
    requires Llm.IsValidStructuredSummary(summary)
    ensures Llm.IsValidStructuredSummary(PolishedOr(Llm.PolishSummaryStrict(summary, text, snippets, apiKey, reply), summary))
  {
  }

  /** Without polishing, without an API key or without text, the reply is never consulted. */
  lemma SummarizeItemUnpolished(item: Item, llmPolish: bool, m: Matches, apiKey: string, reply: Option<string>)
    requires !llmPolish || apiKey == "" || SourceText(item) == ""
    ensures SummarizeItem(item, llmPolish, m, apiKey, reply) == Deterministic(item, m)
  {
  }
}
