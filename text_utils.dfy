/**
 * Text normalisation shared by every stage: HTML entities decoded, tags replaced
 * by a space, whitespace collapsed. `CleanText` yields one line;
 * `CleanMultilineText` keeps the line structure.
 */
module TextUtils {
  import opened Wrappers
  import opened Strings

  /**
   * The named references the model decodes, with what each stands for: the five with and
   * without their semicolon, as `html.unescape` accepts them, and `&apos;`.
   */
  const Entities: seq<(string, char)> := [
    ("&amp;", '&'), ("&lt;", '<'), ("&gt;", '>'), ("&quot;", '"'), ("&apos;", '\''), ("&nbsp;", '\U{a0}'),
    ("&amp", '&'), ("&lt", '<'), ("&gt", '>'), ("&quot", '"'), ("&nbsp", '\U{a0}')
  ]

  /** A digit of a numeric reference: decimal, or hexadecimal when `hex`. */
  predicate IsRefDigit(c: char, hex: bool) {
    IsDigit(c) || (hex && ('a' <= c <= 'f' || 'A' <= c <= 'F'))
  }

  /** The length of the run of reference digits that starts `s` (`[0-9]+` or `[0-9a-fA-F]+`). */
  function DigitRun(s: string, hex: bool): (n: nat)
    ensures n <= |s|
    ensures forall i | 0 <= i < n :: IsRefDigit(s[i], hex)
    ensures n < |s| ==> !IsRefDigit(s[n], hex)
    decreases |s|
  {
    if s == [] || !IsRefDigit(s[0], hex) then 0 else 1 + DigitRun(s[1..], hex)
  }

  function HexDigitValue(c: char): nat
    requires IsRefDigit(c, true)
  {
    if IsDigit(c) then c as int - '0' as int
    else if 'a' <= c <= 'f' then c as int - 'a' as int + 10
    else c as int - 'A' as int + 10
  }

  /** `int(s, 16)` */
  function ParseHex(s: string): nat
    requires forall i | 0 <= i < |s| :: IsRefDigit(s[i], true)
    decreases |s|
  {
    if s == [] then 0 else 16 * ParseHex(s[..|s| - 1]) + HexDigitValue(s[|s| - 1])
  }

  /** What the bytes 0x80 to 0x9F stand for in Windows-1252, the reading HTML gives those references. */
  const Windows1252: seq<char> := [
    '\U{20ac}', '\U{81}', '\U{201a}', '\U{192}', '\U{201e}', '\U{2026}', '\U{2020}', '\U{2021}',
    '\U{2c6}', '\U{2030}', '\U{160}', '\U{2039}', '\U{152}', '\U{8d}', '\U{17d}', '\U{8f}',
    '\U{90}', '\U{2018}', '\U{2019}', '\U{201c}', '\U{201d}', '\U{2022}', '\U{2013}', '\U{2014}',
    '\U{2dc}', '\U{2122}', '\U{161}', '\U{203a}', '\U{153}', '\U{9d}', '\U{17e}', '\U{178}'
  ]

  /** Code points a numeric reference may not produce: they decode to nothing. */
  predicate InvalidCodepoint(n: nat) {
    || 0x1 <= n <= 0x8 || n == 0xB || 0xE <= n <= 0x1F || 0x7F <= n <= 0x9F
    || 0xFDD0 <= n <= 0xFDEF || (n <= 0x10FFFF && n % 0x10000 >= 0xFFFE)
  }

  /**
   * What the numeric reference to `n` decodes to: NUL and carriage return as HTML reads
   * them, 0x80 to 0x9F through Windows-1252, surrogates and numbers beyond Unicode as the
   * replacement character, forbidden code points as nothing, any other as its character.
   */
  function CharRef(n: nat): (r: string)
    ensures |r| <= 1
  {
    if n == 0 then "\U{fffd}"
    else if n == 0xD then "\r"
    else if 0x80 <= n <= 0x9F then [Windows1252[n - 0x80]]
    else if 0xD800 <= n <= 0xDFFF || n > 0x10FFFF then "\U{fffd}"
    else if InvalidCodepoint(n) then ""
    else [n as char]
  }

  /**
   * The numeric reference that starts `s` (`&#` and decimal digits, or `&#x` or `&#X` and
   * hexadecimal digits, with an optional `;`): what it decodes to and how long it is.
   */
  function NumericRef(s: string): (r: Option<(string, nat)>)
    ensures r.Some? ==> 3 <= r.value.1 <= |s| && s[0] == '&'
  {
    if |s| < 3 || s[0] != '&' || s[1] != '#' then None
    else if (s[2] == 'x' || s[2] == 'X') && DigitRun(s[3..], true) > 0 then
      var end := 3 + DigitRun(s[3..], true);
      assert forall i | 0 <= i < |s[3..end]| :: s[3..end][i] == s[3..][i];
      Some((CharRef(ParseHex(s[3..end])), if end < |s| && s[end] == ';' then end + 1 else end))
    else if DigitRun(s[2..], false) > 0 then
      var end := 2 + DigitRun(s[2..], false);
      assert forall i | 0 <= i < |s[2..end]| :: s[2..end][i] == s[2..][i];
      Some((CharRef(ParseNat(s[2..end])), if end < |s| && s[end] == ';' then end + 1 else end))
    else None
  }

  /** The named entity that starts `s`, from the first entry of `table` that matches. */
  function EntityAt(s: string, table: seq<(string, char)>): (r: Option<(char, nat)>)
    ensures r.Some? ==> 0 < r.value.1 <= |s| && s[0] == '&'
  {
    if table == [] then None
    else if |table[0].0| > 0 && table[0].0[0] == '&' && OccursAt(s, table[0].0, 0) then
      Some((table[0].1, |table[0].0|))
    else EntityAt(s, table[1..])
  }

  /** Text that starts `&#`: a reference to a number. */
  predicate StartsNumeric(s: string) {
    |s| > 1 && s[0] == '&' && s[1] == '#'
  }

  /** `html.unescape`: numeric references, and the named references of `Entities`. */
  function Unescape(s: string): string
    decreases |s|, 1
  {
    if s == [] then []
    else if s[0] != '&' then [s[0]] + Unescape(s[1..])
    else UnescapeRef(s)
  }

  /**
   * `html.unescape` from a `&`: the reference that starts there, or a plain `&` when none
   * does. Text that starts `&#` can only be a numeric reference, since no name holds `#`
   * (`TextUtils.NoEntityAtHash`).
   */
  function UnescapeRef(s: string): string
    requires s != [] && s[0] == '&'
    decreases |s|, 0
  {
    if StartsNumeric(s) then
      match NumericRef(s)
      case Some((out, n)) => out + Unescape(s[n..])
      case None => [s[0]] + Unescape(s[1..])
    else
      match EntityAt(s, Entities)
      case Some((c, n)) => [c] + Unescape(s[n..])
      case None => [s[0]] + Unescape(s[1..])
  }

  /** A named reference decodes to its character: the first entry of `table` whose name starts `s`. */
  lemma {:induction false} NamedRefDecodes(s: string, table: seq<(string, char)>, k: nat)
    requires k < |table| && |table[k].0| > 0 && table[k].0[0] == '&' && OccursAt(s, table[k].0, 0)
    requires forall j | 0 <= j < k :: !(|table[j].0| > 0 && table[j].0[0] == '&' && OccursAt(s, table[j].0, 0))
    ensures EntityAt(s, table) == Some((table[k].1, |table[k].0|))
    decreases k
  {
    if k > 0 {
      NamedRefDecodes(s, table[1..], k - 1);
    }
  }

  /** No named reference of a table whose names hold no `#` starts at a `&#`. */
  lemma {:induction false} NoNameAtHash(s: string, table: seq<(string, char)>)
    requires StartsNumeric(s)
    requires forall j | 0 <= j < |table| :: |table[j].0| > 1 && table[j].0[1] != '#'
    ensures EntityAt(s, table).None?
    decreases |table|
  {
    if table != [] {
      assert !OccursAt(s, table[0].0, 0) by {
        assert s[1] != table[0].0[1];
      }
      NoNameAtHash(s, table[1..]);
    }
  }

  /**
   * No named reference of `Entities` starts at a `&#`, so reading text that starts `&#`
   * only as a numeric reference decodes what `html.unescape` decodes.
   */
  lemma NoEntityAtHash(s: string)
    requires StartsNumeric(s)
    ensures EntityAt(s, Entities).None?
  {
    assert forall j | 0 <= j < |Entities| :: |Entities[j].0| > 1 && Entities[j].0[1] != '#';
    NoNameAtHash(s, Entities);
  }

  /** A run of decimal digits followed by a non-digit, or by nothing, is the whole run. */
  lemma {:induction false} DigitRunOf(d: string, t: string)
    requires AllDigits(d) && (t == [] || !IsRefDigit(t[0], false))
    ensures DigitRun(d + t, false) == |d|
    decreases |d|
  {
    if d != [] {
      assert (d + t)[1..] == d[1..] + t;
      DigitRunOf(d[1..], t);
    }
  }

  /** The parts of a reference, `pre`, `d` and `;`, laid out in one text. */
  lemma RefParts(pre: string, d: string, rest: string)
    ensures var s := pre + d + ";" + rest; var end := |pre| + |d|;
      && end < |s| && s[..|pre|] == pre && s[|pre|..] == d + (";" + rest)
      && s[|pre|..end] == d && s[end] == ';' && s[end + 1..] == rest
  {
  }

  /** `&#`, the decimal digits of `n` and `;` read as one reference to `n`. */
  lemma DecimalRefAt(n: nat, rest: string)
    ensures NumericRef("&#" + NatToString(n) + ";" + rest) == Some((CharRef(n), |NatToString(n)| + 3))
  {
    var d := NatToString(n);
    var s := "&#" + d + ";" + rest;
    NatToStringDigits(n);
    ParseNatToString(n);
    RefParts("&#", d, rest);
    assert s[2] == d[0] && IsDigit(d[0]);
    DigitRunOf(d, ";" + rest);
    var end := 2 + |d|;
    assert NumericRef(s) == Some((CharRef(ParseNat(s[2..end])), end + 1));
  }

  /**
   * The decimal reference to any number decodes to what that number stands for, and the
   * text after it is decoded on its own.
   */
  lemma DecimalRefDecodes(n: nat, rest: string)
    ensures Unescape("&#" + NatToString(n) + ";" + rest) == CharRef(n) + Unescape(rest)
  {
    var d := NatToString(n);
    var s := "&#" + d + ";" + rest;
    DecimalRefAt(n, rest);
    RefParts("&#", d, rest);
    assert Unescape(s) == UnescapeRef(s);
  }

  /** A run of hexadecimal digits followed by a non-digit, or by nothing, is the whole run. */
  lemma {:induction false} HexRunOf(d: string, t: string)
    requires forall i | 0 <= i < |d| :: IsRefDigit(d[i], true)
    requires t == [] || !IsRefDigit(t[0], true)
    ensures DigitRun(d + t, true) == |d|
    decreases |d|
  {
    if d != [] {
      assert (d + t)[1..] == d[1..] + t;
      HexRunOf(d[1..], t);
    }
  }

  /** `&#x` or `&#X`, hexadecimal digits and `;` read as one reference to the number they spell. */
  lemma HexRefAt(x: char, d: string, rest: string)
    requires x == 'x' || x == 'X'
    requires d != [] && forall i | 0 <= i < |d| :: IsRefDigit(d[i], true)
    ensures NumericRef("&#" + [x] + d + ";" + rest) == Some((CharRef(ParseHex(d)), |d| + 4))
  {
    var s := "&#" + [x] + d + ";" + rest;
    var pre := "&#" + [x];
    RefParts(pre, d, rest);
    assert s[0] == pre[0] == '&' && s[1] == pre[1] == '#' && s[2] == pre[2] == x;
    HexRunOf(d, ";" + rest);
    assert DigitRun(s[3..], true) == |d|;
    var end := 3 + |d|;
    assert NumericRef(s) == Some((CharRef(ParseHex(s[3..end])), end + 1));
  }

  /**
   * A hexadecimal reference, `&#x` or `&#X` then hexadecimal digits then `;`, decodes to
   * what the number they spell stands for, and the text after it is decoded on its own.
   */
  lemma HexRefDecodes(x: char, d: string, rest: string)
    requires x == 'x' || x == 'X'
    requires d != [] && forall i | 0 <= i < |d| :: IsRefDigit(d[i], true)
    ensures Unescape("&#" + [x] + d + ";" + rest) == CharRef(ParseHex(d)) + Unescape(rest)
  {
    var s := "&#" + [x] + d + ";" + rest;
    HexRefAt(x, d, rest);
    RefParts("&#" + [x], d, rest);
    assert Unescape(s) == UnescapeRef(s);
  }

  /** `re.sub(r"<[^>]+>", " ", s)` */
  function StripTags(s: string): string
    decreases |s|
  {
    if s == [] then []
    else if s[0] == '<' && |s| > 1 && s[1] != '>' && IndexOf(s[1..], '>') < |s| - 1 then
      [' '] + StripTags(s[IndexOf(s[1..], '>') + 2..])
    else [s[0]] + StripTags(s[1..])
  }

  lemma {:induction false} UnescapeWithoutAmp(s: string)
    requires Lacks(s, '&')
    ensures Unescape(s) == s
    decreases |s|
  {
    if s != [] {
      UnescapeWithoutAmp(s[1..]);
    }
  }

  lemma {:induction false} StripTagsWithoutLt(s: string)
    requires Lacks(s, '<')
    ensures StripTags(s) == s
    decreases |s|
  {
    if s != [] { StripTagsWithoutLt(s[1..]); }
  }

  /** `clean_text` */
  function CleanText(raw: string): string {
    if raw == "" then "" else Strip(CollapseSpaces(StripTags(Unescape(raw))))
  }

  /**
   * `clean_text` yields one trimmed line in which every whitespace run is a single space,
   * and it keeps every non-whitespace character of the decoded, tag-stripped text.
   */
  lemma CleanTextShape(raw: string)
    ensures var r := CleanText(raw);
      && Trimmed(r) && SingleSpaced(r)
      && (forall i | 0 <= i < |r| :: !IsLineBreak(r[i]))
      && NonSpace(r) == NonSpace(StripTags(Unescape(raw)))
  {
    if raw != "" {
      var t := StripTags(Unescape(raw));
      StripShape(CollapseSpaces(t));
      SingleSpacedStrip(CollapseSpaces(t));
      SingleSpacedNoLineBreak(CleanText(raw));
      StripKeepsText(CollapseSpaces(t));
      CollapseKeepsText(t);
    }
  }

  /** Text that is already one clean line, free of entities and tags, is its own `clean_text`. */
  lemma CleanTextOfClean(s: string)
    requires Lacks(s, '&') && Lacks(s, '<') && Trimmed(s) && SingleSpaced(s)
    ensures CleanText(s) == s
  {
    UnescapeWithoutAmp(s);
    StripTagsWithoutLt(s);
    CollapseOfSingleSpaced(s);
    StripOfTrimmed(s);
  }

  /** One line of `clean_multiline_text`: whitespace runs collapsed, then stripped. */
  function NormalizeLine(ln: string): string {
    Strip(CollapseSpaces(ln))
  }

  /** The normalised lines, empty ones dropped. */
  function KeptLines(lines: seq<string>): (r: seq<string>)
    ensures forall k | 0 <= k < |r| :: r[k] != [] && Trimmed(r[k]) && SingleSpaced(r[k])
    ensures |r| <= |lines|
  {
    if lines == [] then []
    else KeptLine(lines[0]) + KeptLines(lines[1..])
  }

  /** One line normalised, or nothing when it normalises to the empty string. */
  function KeptLine(line: string): (r: seq<string>)
    ensures |r| <= 1
    ensures forall k | 0 <= k < |r| :: r[k] != [] && Trimmed(r[k]) && SingleSpaced(r[k])
  {
    var ln := NormalizeLine(line);
    StripShape(CollapseSpaces(line));
    SingleSpacedStrip(CollapseSpaces(line));
    if ln == "" then [] else [ln]
  }

  /** `\r\n` and `\r` both become `\n`. */
  function NormalizeNewlines(s: string): string {
    ReplaceAll(ReplaceAll(s, "\r\n", "\n"), "\r", "\n")
  }

  /** `clean_multiline_text` */
  function CleanMultilineText(raw: string): (r: string) {
    if raw == "" then ""
    else Strip(Join("\n", KeptLines(SplitOn(NormalizeNewlines(StripTags(Unescape(raw))), '\n'))))
  }

  /** Non-empty trimmed single-spaced lines joined by newlines: what `CleanMultilineText` yields. */
  predicate CanonicalLines(xs: seq<string>) {
    forall k | 0 <= k < |xs| ::
      xs[k] != [] && Trimmed(xs[k]) && SingleSpaced(xs[k]) && Lacks(xs[k], '&') && Lacks(xs[k], '<')
  }

  lemma CanonicalLacksBreaks(x: string)
    requires x != [] && SingleSpaced(x)
    ensures Lacks(x, '\n') && Lacks(x, '\r')
  {
    SingleSpacedNoLineBreak(x);
  }

  lemma {:induction false} JoinLacks(xs: seq<string>, c: char, sep: char)
    requires forall k | 0 <= k < |xs| :: Lacks(xs[k], c)
    requires c != sep
    ensures Lacks(Join([sep], xs), c)
    decreases |xs|
  {
    if |xs| > 1 { JoinLacks(xs[1..], c, sep); }
  }

  lemma {:induction false} JoinTrimmed(xs: seq<string>)
    requires forall k | 0 <= k < |xs| :: xs[k] != [] && Trimmed(xs[k])
    ensures Trimmed(Join("\n", xs))
    ensures |xs| > 0 ==> Join("\n", xs) != []
    decreases |xs|
  {
    if |xs| > 1 {
      JoinTrimmed(xs[1..]);
      var s := Join("\n", xs);
      assert s == xs[0] + "\n" + Join("\n", xs[1..]);
      assert s[0] == xs[0][0];
    }
  }

  lemma {:induction false} KeptCanonical(xs: seq<string>)
    requires CanonicalLines(xs)
    ensures KeptLines(xs) == xs
    decreases |xs|
  {
    if xs != [] {
      var x, rest := xs[0], xs[1..];
      CollapseOfSingleSpaced(x);
      StripOfTrimmed(x);
      assert KeptLine(x) == [x];
      assert CanonicalLines(rest) by {
        forall k | 0 <= k < |rest| ensures rest[k] == xs[k + 1] { }
      }
      KeptCanonical(rest);
      assert KeptLines(xs) == [x] + rest;
      assert xs == [x] + rest;
    }
  }

  /**
   * Text that is already a run of clean lines passes `clean_multiline_text` unchanged,
   * line breaks included.
   */
  lemma CleanMultilineKeepsLines(xs: seq<string>)
    requires |xs| >= 1 && CanonicalLines(xs)
    ensures CleanMultilineText(Join("\n", xs)) == Join("\n", xs)
  {
    var s := Join("\n", xs);
    JoinTrimmed(xs);
    forall k | 0 <= k < |xs| ensures Lacks(xs[k], '\n') && Lacks(xs[k], '\r') {
      CanonicalLacksBreaks(xs[k]);
    }
    JoinLacks(xs, '&', '\n');
    JoinLacks(xs, '<', '\n');
    JoinLacks(xs, '\r', '\n');
    UnescapeWithoutAmp(s);
    StripTagsWithoutLt(s);
    LacksNotContains(s, "\r\n");
    ReplaceAbsent(s, "\r\n", "\n");
    LacksNotContains(s, "\r");
    ReplaceAbsent(s, "\r", "\n");
    assert NormalizeNewlines(s) == s;
    SplitOnJoin(xs, '\n');
    KeptCanonical(xs);
    StripOfTrimmed(s);
  }

  /**
   * For any input, `clean_multiline_text` yields trimmed text without a carriage return
   * whose lines, split at newlines, are the input's lines after decoding, tag stripping
   * and normalisation, in order, with the empty ones dropped: no line is empty, and each is
   * trimmed and single-spaced.
   */
  lemma CleanMultilineShape(raw: string)
    ensures var r := CleanMultilineText(raw);
      && Trimmed(r)
      && Lacks(r, '\r')
      && (r != "" ==>
            && SplitOn(r, '\n') == KeptLines(SplitOn(NormalizeNewlines(StripTags(Unescape(raw))), '\n'))
            && forall k | 0 <= k < |SplitOn(r, '\n')| ::
                 SplitOn(r, '\n')[k] != "" && Trimmed(SplitOn(r, '\n')[k]) && SingleSpaced(SplitOn(r, '\n')[k]))
  {
    if raw != "" {
      var lines := KeptLines(SplitOn(NormalizeNewlines(StripTags(Unescape(raw))), '\n'));
      var s := Join("\n", lines);
      JoinTrimmed(lines);
      StripOfTrimmed(s);
      assert CleanMultilineText(raw) == s;
      forall k | 0 <= k < |lines| ensures Lacks(lines[k], '\n') && Lacks(lines[k], '\r') {
        CanonicalLacksBreaks(lines[k]);
      }
      JoinLacks(lines, '\r', '\n');
      if s != "" {
        SplitOnJoin(lines, '\n');
      }
    }
  }

  /** The same text through `clean_text` loses every line break. */
  lemma CleanTextIsOneLine(raw: string)
    ensures SplitLines(CleanText(raw)) == if CleanText(raw) == "" then [] else [CleanText(raw)]
  {
    CleanTextShape(raw);
    SplitLinesOneLine(CleanText(raw));
  }
}
