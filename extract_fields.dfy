/**
 * Structured fields read off a record's cleaned, lower-cased text: trial phase,
 * study design, reported endpoints and the largest enrolment count.
 */
module ExtractFields {
  import opened Wrappers
  import opened Strings
  import opened TextUtils
  import opened Patterns

  /** `clean_text(text).lower()`, the text every detector searches. */
  function Cleaned(text: string): string {
    Lower(CleanText(text))
  }

  // ---------------------------------------------------------------- priority-ordered classification

  /** Groups of cues, highest priority first, each with the label it yields. */
  type CueTable = seq<(seq<string>, string)>

  /** The label of the first group from `i` on with a cue in `t`, or `otherwise`. */
  function ClassifyFrom(t: string, table: CueTable, i: nat, otherwise: string): string
    decreases |table| - i
  {
    if i >= |table| then otherwise
    else if ContainsAny(t, table[i].0) then table[i].1
    else ClassifyFrom(t, table, i + 1, otherwise)
  }

  /** A group whose cue occurs wins over every later group. */
  lemma {:induction false} ClassifyFromFirst(t: string, table: CueTable, i: nat, k: nat, otherwise: string)
    requires i <= k < |table| && ContainsAny(t, table[k].0)
    requires forall j | i <= j < k :: !ContainsAny(t, table[j].0)
    ensures ClassifyFrom(t, table, i, otherwise) == table[k].1
    decreases k - i
  {
    if i < k {
      ClassifyFromFirst(t, table, i + 1, k, otherwise);
    }
  }

  /** With no cue of any group present the answer is the fallback. */
  lemma {:induction false} ClassifyFromNone(t: string, table: CueTable, i: nat, otherwise: string)
    requires forall j | i <= j < |table| :: !ContainsAny(t, table[j].0)
    ensures ClassifyFrom(t, table, i, otherwise) == otherwise
    decreases |table| - i
  {
    if i < |table| {
      ClassifyFromNone(t, table, i + 1, otherwise);
    }
  }

  lemma ContainsAnyOne(t: string, a: string)
    ensures ContainsAny(t, [a]) <==> Contains(t, a)
  {
    if Contains(t, a) { assert Contains(t, [a][0]); }
  }

  lemma ContainsAnyTwo(t: string, a: string, b: string)
    ensures ContainsAny(t, [a, b]) <==> Contains(t, a) || Contains(t, b)
  {
    if Contains(t, a) { assert Contains(t, [a, b][0]); }
    if Contains(t, b) { assert Contains(t, [a, b][1]); }
  }

  // ---------------------------------------------------------------- phase

  /** `detect_phase` */
  function DetectPhase(text: string): string {
    PhaseOf(Cleaned(text))
  }

  /** The phase read off cleaned, lower-cased text. */
  function PhaseOf(t: string): string {
    if Contains(t, "phase iii") || Contains(t, "phase 3") then "Phase III"
    else if Contains(t, "phase ii") || Contains(t, "phase 2") then "Phase II"
    else if Contains(t, "phase i") || Contains(t, "phase 1") then "Phase I"
    else if Contains(t, "phase iv") || Contains(t, "phase 4") then "Phase IV"
    else "Unknown"
  }

  /** The phase cues in the order they are checked. */
  const PhaseCues: CueTable := [
    (["phase iii", "phase 3"], "Phase III"),
    (["phase ii", "phase 2"], "Phase II"),
    (["phase i", "phase 1"], "Phase I"),
    (["phase iv", "phase 4"], "Phase IV")
  ]

  /** The phase is that of the first cue group present, III before II before I before IV. */
  lemma PhaseByPriority(t: string)
    ensures PhaseOf(t) == ClassifyFrom(t, PhaseCues, 0, "Unknown")
  {
    ContainsAnyTwo(t, "phase iii", "phase 3");
    ContainsAnyTwo(t, "phase ii", "phase 2");
    ContainsAnyTwo(t, "phase i", "phase 1");
    ContainsAnyTwo(t, "phase iv", "phase 4");
  }

  /** Text mentioning a roman-numeral phase always mentions "phase i" too. */
  lemma RomanPhaseMentionsPhaseOne(t: string, numeral: string)
    requires numeral == "phase iii" || numeral == "phase ii" || numeral == "phase iv"
    requires Contains(t, numeral)
    ensures Contains(t, "phase i")
  {
    assert numeral[..7] == "phase i";
    ContainsPrefix(numeral, 7);
    var i :| 0 <= i <= |t| && OccursAt(t, numeral, i);
    ContainsInfix(t, numeral, "phase i", i);
  }

  /** A "phase iv" study that names neither phase III nor phase II is classified as Phase I. */
  lemma PhaseFourReadsAsPhaseOne(t: string)
    requires Contains(t, "phase iv") && !Contains(t, "phase iii") && !Contains(t, "phase 3")
    requires !Contains(t, "phase ii") && !Contains(t, "phase 2")
    ensures PhaseOf(t) == "Phase I"
  {
    RomanPhaseMentionsPhaseOne(t, "phase iv");
  }

  /** "Phase IV" comes only from the arabic spelling: the roman cue "phase iv" never decides. */
  lemma PhaseFourOnlyArabic(t: string)
    ensures PhaseOf(t) == "Phase IV" <==>
      !Contains(t, "phase 3") && !Contains(t, "phase 2") && !Contains(t, "phase i") && !Contains(t, "phase 1")
      && Contains(t, "phase 4")
  {
    if Contains(t, "phase iii") { RomanPhaseMentionsPhaseOne(t, "phase iii"); }
    if Contains(t, "phase ii") { RomanPhaseMentionsPhaseOne(t, "phase ii"); }
    if Contains(t, "phase iv") { RomanPhaseMentionsPhaseOne(t, "phase iv"); }
  }

  // ---------------------------------------------------------------- study type

  /** `detect_study_type` */
  function DetectStudyType(text: string): string {
    StudyTypeOf(Cleaned(text))
  }

  /** The study design read off cleaned, lower-cased text. */
  function StudyTypeOf(t: string): string {
    if Contains(t, "meta-analysis") || Contains(t, "systematic review") then "Meta-analysis/Systematic review"
    else if Contains(t, "randomized") || Contains(t, "rct") then "Randomized trial"
    else if Contains(t, "retrospective") then "Retrospective study"
    else if Contains(t, "prospective") then "Prospective study"
    else if Contains(t, "single-arm") || Contains(t, "single arm") then "Single-arm study"
    else "Unknown"
  }

  /** The study-design cues, highest priority first. */
  const StudyTypeCues: CueTable := [
    (["meta-analysis", "systematic review"], "Meta-analysis/Systematic review"),
    (["randomized", "rct"], "Randomized trial"),
    (["retrospective"], "Retrospective study"),
    (["prospective"], "Prospective study"),
    (["single-arm", "single arm"], "Single-arm study")
  ]

  /** Meta-analysis before randomized before retrospective before prospective before single-arm. */
  lemma StudyTypeByPriority(t: string)
    ensures StudyTypeOf(t) == ClassifyFrom(t, StudyTypeCues, 0, "Unknown")
  {
    ContainsAnyTwo(t, "meta-analysis", "systematic review");
    ContainsAnyTwo(t, "randomized", "rct");
    ContainsAnyOne(t, "retrospective");
    ContainsAnyOne(t, "prospective");
    ContainsAnyTwo(t, "single-arm", "single arm");
  }

  // ---------------------------------------------------------------- endpoints

  /** The endpoint cues in the order they are checked, with their labels; "ORR" has two cues. */
  const EndpointMap: seq<(string, string)> := [
    ("overall survival", "OS"),
    ("progression-free survival", "PFS"),
    ("objective response rate", "ORR"),
    ("orr", "ORR"),
    ("disease-free survival", "DFS"),
    ("toxicity", "Toxicity"),
    ("adverse event", "Adverse events")
  ]

  /** The distinct endpoint labels, in the order of their first cue. */
  const EndpointOrder: seq<string> := ["OS", "PFS", "ORR", "DFS", "Toxicity", "Adverse events"]

  /** `[x]` when `b` holds, else nothing. */
  function When(b: bool, x: string): seq<string> {
    if b then [x] else []
  }

  /** A label is reported when any of its cues occurs. */
  predicate LabelFound(t: string, name: string) {
    exists k | 0 <= k < |EndpointMap| :: EndpointMap[k].1 == name && Contains(t, EndpointMap[k].0)
  }

  /** The first `n` labels of `EndpointOrder` that are found, in that order. */
  function FoundAmong(t: string, n: nat): seq<string>
    requires n <= |EndpointOrder|
  {
    if n == 0 then [] else FoundAmong(t, n - 1) + When(LabelFound(t, EndpointOrder[n - 1]), EndpointOrder[n - 1])
  }

  /** The labels reported for `t`: `EndpointOrder` filtered by `LabelFound`. */
  function EndpointLabels(t: string): seq<string> {
    FoundAmong(t, |EndpointOrder|)
  }

  /** Filtering keeps exactly the found labels among the first `n`, each once. */
  lemma {:induction false} FoundAmongSpec(t: string, n: nat)
    requires n <= |EndpointOrder|
    ensures forall name :: name in FoundAmong(t, n) <==> name in EndpointOrder[..n] && LabelFound(t, name)
    ensures forall i, j | 0 <= i < j < |FoundAmong(t, n)| :: FoundAmong(t, n)[i] != FoundAmong(t, n)[j]
    decreases n
  {
    if n > 0 {
      FoundAmongSpec(t, n - 1);
      assert EndpointOrder[..n] == EndpointOrder[..n - 1] + [EndpointOrder[n - 1]];
      assert EndpointOrder[n - 1] !in EndpointOrder[..n - 1];
    }
  }

  lemma LabelFoundVia(t: string, k: nat)
    requires k < |EndpointMap| && Contains(t, EndpointMap[k].0)
    ensures LabelFound(t, EndpointMap[k].1)
  {
  }

  /** Each label is found exactly when one of its own cues occurs. */
  lemma LabelFoundIff(t: string)
    ensures LabelFound(t, "OS") <==> Contains(t, "overall survival")
    ensures LabelFound(t, "PFS") <==> Contains(t, "progression-free survival")
    ensures LabelFound(t, "ORR") <==> Contains(t, "objective response rate") || Contains(t, "orr")
    ensures LabelFound(t, "DFS") <==> Contains(t, "disease-free survival")
    ensures LabelFound(t, "Toxicity") <==> Contains(t, "toxicity")
    ensures LabelFound(t, "Adverse events") <==> Contains(t, "adverse event")
    ensures forall name | LabelFound(t, name) :: name in EndpointOrder
  {
    forall name | LabelFound(t, name)
      ensures name == EndpointMap[0].1 ==> Contains(t, EndpointMap[0].0)
      ensures name == EndpointMap[1].1 ==> Contains(t, EndpointMap[1].0)
      ensures name == EndpointMap[2].1 ==> Contains(t, EndpointMap[2].0) || Contains(t, EndpointMap[3].0)
      ensures name == EndpointMap[4].1 ==> Contains(t, EndpointMap[4].0)
      ensures name == EndpointMap[5].1 ==> Contains(t, EndpointMap[5].0)
      ensures name == EndpointMap[6].1 ==> Contains(t, EndpointMap[6].0)
      ensures name in EndpointOrder
    {
      var k :| 0 <= k < |EndpointMap| && EndpointMap[k].1 == name && Contains(t, EndpointMap[k].0);
      if k == 0 {} else if k == 1 {} else if k == 2 {} else if k == 3 {} else if k == 4 {} else if k == 5 {} else {}
    }
    if Contains(t, "overall survival") { LabelFoundVia(t, 0); }
    if Contains(t, "progression-free survival") { LabelFoundVia(t, 1); }
    if Contains(t, "objective response rate") { LabelFoundVia(t, 2); }
    if Contains(t, "orr") { LabelFoundVia(t, 3); }
    if Contains(t, "disease-free survival") { LabelFoundVia(t, 4); }
    if Contains(t, "toxicity") { LabelFoundVia(t, 5); }
    if Contains(t, "adverse event") { LabelFoundVia(t, 6); }
  }

  /** The reported labels are exactly the labels with a cue in the text, each once. */
  lemma EndpointLabelsSpec(t: string)
    ensures forall name :: name in EndpointLabels(t) <==> LabelFound(t, name)
    ensures forall i, j | 0 <= i < j < |EndpointLabels(t)| :: EndpointLabels(t)[i] != EndpointLabels(t)[j]
  {
    FoundAmongSpec(t, |EndpointOrder|);
    LabelFoundIff(t);
    assert EndpointOrder[..|EndpointOrder|] == EndpointOrder;
  }

  /** The labels after the loop has looked at the first `i` cues. */
  function EndpointsAfter(t: string, i: nat): seq<string>
    requires i <= |EndpointMap|
  {
    if i == 0 then []
    else
      var e := EndpointsAfter(t, i - 1);
      if Contains(t, EndpointMap[i - 1].0) && EndpointMap[i - 1].1 !in e then e + [EndpointMap[i - 1].1] else e
  }

  /** A loop step whose cue is the only cue of the next label extends the filtered list by that label. */
  lemma EndpointStep(t: string, i: nat, n: nat)
    requires i < |EndpointMap| && n < |EndpointOrder|
    requires EndpointMap[i].1 == EndpointOrder[n]
    requires LabelFound(t, EndpointOrder[n]) <==> Contains(t, EndpointMap[i].0)
    requires EndpointsAfter(t, i) == FoundAmong(t, n)
    ensures EndpointsAfter(t, i + 1) == FoundAmong(t, n + 1)
  {
    var e := EndpointsAfter(t, i);
    var name := EndpointOrder[n];
    FoundAmongSpec(t, n);
    OrderDistinct(n);
    assert name !in e;
    assert FoundAmong(t, n + 1) == e + When(LabelFound(t, name), name);
  }

  lemma OrderDistinct(n: nat)
    requires n < |EndpointOrder|
    ensures EndpointOrder[n] !in EndpointOrder[..n]
  {
  }

  /** The first four steps, the two "ORR" cues among them, report OS, PFS and ORR. */
  lemma EndpointsAfterResponse(t: string)
    ensures EndpointsAfter(t, 4) == FoundAmong(t, 3)
  {
    LabelFoundIff(t);
    EndpointStep(t, 0, 0);
    EndpointStep(t, 1, 1);
    FoundAmongSpec(t, 2);
    assert EndpointsAfter(t, 3) == FoundAmong(t, 2) + When(Contains(t, "objective response rate"), "ORR");
  }

  /** The loop's seven steps build the filtered label list. */
  lemma EndpointsAfterAll(t: string)
    ensures EndpointsAfter(t, |EndpointMap|) == EndpointLabels(t)
  {
    EndpointsAfterResponse(t);
    LabelFoundIff(t);
    EndpointStep(t, 4, 3);
    EndpointStep(t, 5, 4);
    EndpointStep(t, 6, 5);
  }

  /** The loop of `detect_endpoints`: each cue's label, appended once, in cue order. */
  method CollectEndpoints(t: string) returns (endpoints: seq<string>)
    ensures endpoints == EndpointLabels(t)
  {
    endpoints := [];
    var i := 0;
    while i < |EndpointMap|
      invariant 0 <= i <= |EndpointMap|
      invariant endpoints == EndpointsAfter(t, i)
    {
      var (needle, name) := EndpointMap[i];
      if Contains(t, needle) && name !in endpoints {
        endpoints := endpoints + [name];
      }
      i := i + 1;
    }
    EndpointsAfterAll(t);
  }

  /** `detect_endpoints`: the labels joined by ", ", or "Unknown" when there are none. */
  method DetectEndpoints(text: string) returns (r: string)
    ensures var labels := EndpointLabels(Cleaned(text));
      r == if labels == [] then "Unknown" else Join(", ", labels)
  {
    var endpoints := CollectEndpoints(Cleaned(text));
    r := if endpoints == [] then "Unknown" else Join(", ", endpoints);
  }

  // ---------------------------------------------------------------- sample size

  /** The largest element of a non-empty list. */
  function MaxOf(xs: seq<nat>): (m: nat)
    requires xs != []
    ensures m in xs && forall k | 0 <= k < |xs| :: xs[k] <= m
  {
    if |xs| == 1 then xs[0]
    else
      var rest := MaxOf(xs[1..]);
      assert forall k | 1 <= k < |xs| :: xs[k] == xs[1..][k - 1];
      if xs[0] >= rest then xs[0] else rest
  }

  /** `detect_sample_size` */
  function DetectSampleSize(text: string): string {
    SampleSizeOf(Cleaned(text))
  }

  /** "N~" and the largest enrolment count in cleaned, lower-cased text, or "Unknown". */
  function SampleSizeOf(t: string): string {
    var ms := Counts(t, FieldCountLabels);
    if ms == [] then "Unknown" else "N~" + NatToString(MaxOf(ms))
  }

  /**
   * "Unknown" exactly when the enrolment pattern matches nowhere; otherwise the count
   * shown is matched somewhere and no match is larger.
   */
  lemma SampleSizeSpec(t: string)
    ensures && (SampleSizeOf(t) == "Unknown" <==> forall j | 0 <= j < |t| :: CountAt(t, j, FieldCountLabels).None?)
      && (SampleSizeOf(t) != "Unknown" ==>
            exists m: nat, j | 0 <= j < |t| ::
              && SampleSizeOf(t) == "N~" + NatToString(m)
              && CountAt(t, j, FieldCountLabels) == Some(m)
              && forall i | 0 <= i < |t| && CountAt(t, i, FieldCountLabels).Some? :: CountAt(t, i, FieldCountLabels).value <= m)
  {
    var ms := Counts(t, FieldCountLabels);
    if ms == [] {
      forall j | 0 <= j < |t| ensures CountAt(t, j, FieldCountLabels).None? {
        if CountAt(t, j, FieldCountLabels).Some? {
          CountsFromMembers(t, 0, FieldCountLabels, CountAt(t, j, FieldCountLabels).value);
        }
      }
    } else {
      var m := MaxOf(ms);
      assert SampleSizeOf(t)[..2] == "N~";
      CountsFromMembers(t, 0, FieldCountLabels, m);
      var j :| 0 <= j < |t| && CountAt(t, j, FieldCountLabels) == Some(m);
      forall i | 0 <= i < |t| && CountAt(t, i, FieldCountLabels).Some?
        ensures CountAt(t, i, FieldCountLabels).value <= m
      {
        CountsFromMembers(t, 0, FieldCountLabels, CountAt(t, i, FieldCountLabels).value);
      }
    }
  }
}
