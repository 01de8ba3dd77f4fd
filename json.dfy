/**
 * Python's `json.dumps` on a list of strings with its default settings: ASCII-only
 * output (`ensure_ascii`), `", "` between items, `\uXXXX` escapes in lower-case hex and
 * surrogate pairs above U+FFFF. `Loads` reads that form back. The store keeps an item's
 * score explanation in this serialized form.
 */
module Json {
  import opened Wrappers

  // ---------------------------------------------------------------- hex digits

  /** The lower-case hex digit of `d`. */
  function HexDigit(d: int): char
    requires 0 <= d < 16
  {
    if d < 10 then ('0' as int + d) as char else ('a' as int + d - 10) as char
  }

  /** The value of a hex digit of either case. */
  function HexValue(c: char): (r: Option<int>)
    ensures r.Some? ==> 0 <= r.value < 16
  {
    if '0' <= c <= '9' then Some(c as int - '0' as int)
    else if 'a' <= c <= 'f' then Some(c as int - 'a' as int + 10)
    else if 'A' <= c <= 'F' then Some(c as int - 'A' as int + 10)
    else None
  }

  /** `'{0:04x}'.format(n)` */
  function Hex4(n: int): (r: string)
    requires 0 <= n < 0x10000
    ensures |r| == 4
  {
    [HexDigit(n / 0x1000), HexDigit(n / 0x100 % 16), HexDigit(n / 16 % 16), HexDigit(n % 16)]
  }

  /** Four hex digits at the head of `s`. */
  function ReadHex4(s: string): (r: Option<int>)
    requires |s| >= 4
    ensures r.Some? ==> 0 <= r.value < 0x10000
  {
    match (HexValue(s[0]), HexValue(s[1]), HexValue(s[2]), HexValue(s[3]))
    case (Some(a), Some(b), Some(c), Some(d)) => Some(a * 0x1000 + b * 0x100 + c * 16 + d)
    case _ => None
  }

  // ---------------------------------------------------------------- writing

  /** How `json.dumps` writes one character of a string. */
  function Escape(c: char): string {
    if c == '"' then "\\\""
    else if c == '\\' then "\\\\"
    else if c == '\n' then "\\n"
    else if c == '\r' then "\\r"
    else if c == '\t' then "\\t"
    else if c as int == 8 then "\\b"
    else if c as int == 12 then "\\f"
    else if 0x20 <= c as int <= 0x7e then [c]
    else if c as int < 0x10000 then "\\u" + Hex4(c as int)
    else
      var m := c as int - 0x10000;
      "\\u" + Hex4(0xD800 + m / 0x400) + "\\u" + Hex4(0xDC00 + m % 0x400)
  }

  function EscapeAll(s: string): string {
    if s == [] then [] else Escape(s[0]) + EscapeAll(s[1..])
  }

  /** A JSON string literal. */
  function Quote(s: string): string {
    "\"" + EscapeAll(s) + "\""
  }

  /** The items of a non-empty list, separated by `", "`. */
  function Items(xs: seq<string>): string
    requires xs != []
  {
    if |xs| == 1 then Quote(xs[0]) else Quote(xs[0]) + ", " + Items(xs[1..])
  }

  /** `json.dumps(xs)` */
  function Dumps(xs: seq<string>): string {
    if xs == [] then "[]" else "[" + Items(xs) + "]"
  }

  // ---------------------------------------------------------------- reading

  /** One character of a string literal's body, plain or escaped, and what follows it. */
  function ReadChar(s: string): (r: Option<(char, string)>)
    requires s != []
    ensures r.Some? ==> |r.value.1| < |s|
  {
    if s[0] != '\\' then Some((s[0], s[1..]))
    else if |s| < 2 then None
    else
      var e := s[1];
      if e == '"' || e == '\\' || e == '/' then Some((e, s[2..]))
      else if e == 'n' then Some(('\n', s[2..]))
      else if e == 'r' then Some(('\r', s[2..]))
      else if e == 't' then Some(('\t', s[2..]))
      else if e == 'b' then Some((8 as char, s[2..]))
      else if e == 'f' then Some((12 as char, s[2..]))
      else if e != 'u' || |s| < 6 then None
      else
        match ReadHex4(s[2..6])
        case None => None
        case Some(v) =>
          if v < 0xD800 || 0xE000 <= v then Some((v as char, s[6..]))
          else if 0xDC00 <= v || |s| < 12 || s[6] != '\\' || s[7] != 'u' then None
          else
            match ReadHex4(s[8..12])
            case None => None
            case Some(w) =>
              if 0xDC00 <= w < 0xE000 then
                Some(((0x10000 + (v - 0xD800) * 0x400 + (w - 0xDC00)) as char, s[12..]))
              else None
  }

  /** The body of a string literal up to its closing quote, decoded, and what follows the quote. */
  function ReadString(s: string): (r: Option<(string, string)>)
    ensures r.Some? ==> |r.value.1| < |s|
    decreases |s|
  {
    if s == [] then None
    else if s[0] == '"' then Some(([], s[1..]))
    else
      match ReadChar(s)
      case None => None
      case Some((c, t)) =>
        match ReadString(t)
        case None => None
        case Some((body, rest)) => Some(([c] + body, rest))
  }

  /** The items of a list after its `[`, up to and including the closing `]`. */
  function ReadItems(s: string): Option<seq<string>>
    decreases |s|
  {
    if s == [] || s[0] != '"' then None
    else
      match ReadString(s[1..])
      case None => None
      case Some((x, rest)) =>
        if rest == "]" then Some([x])
        else if |rest| >= 2 && rest[0] == ',' && rest[1] == ' ' then
          match ReadItems(rest[2..])
          case None => None
          case Some(more) => Some([x] + more)
        else None
  }

  /** `json.loads` restricted to a list of strings written as `Dumps` writes it. */
  function Loads(s: string): Option<seq<string>> {
    if s == "[]" then Some([])
    else if s != [] && s[0] == '[' then ReadItems(s[1..])
    else None
  }

  // ---------------------------------------------------------------- round trip

  lemma HexDigitValue(d: int)
    requires 0 <= d < 16
    ensures HexValue(HexDigit(d)) == Some(d)
  {
  }

  lemma ReadHex4Of(n: int, t: string)
    requires 0 <= n < 0x10000
    ensures ReadHex4(Hex4(n) + t) == Some(n)
  {
    var s := Hex4(n) + t;
    HexDigitValue(n / 0x1000);
    HexDigitValue(n / 0x100 % 16);
    HexDigitValue(n / 16 % 16);
    HexDigitValue(n % 16);
    assert s[0] == HexDigit(n / 0x1000) && s[1] == HexDigit(n / 0x100 % 16);
    assert s[2] == HexDigit(n / 16 % 16) && s[3] == HexDigit(n % 16);
    assert n / 0x100 == n / 0x1000 * 16 + n / 0x100 % 16;
    assert n / 16 == n / 0x100 * 16 + n / 16 % 16;
  }

  /** Reading an escaped character gives the character back and leaves the rest. */
  lemma ReadEscape(c: char, t: string)
    ensures Escape(c) != [] && Escape(c)[0] != '"'
    ensures ReadChar(Escape(c) + t) == Some((c, t))
  {
    var n := c as int;
    if c == '"' || c == '\\' || c == '\n' || c == '\r' || c == '\t' || n == 8 || n == 12 {
      ReadShortEscape(c, t);
    } else if 0x20 <= n <= 0x7e {
      assert (Escape(c) + t)[1..] == t;
    } else if n < 0x10000 {
      ReadBmpEscape(c, t);
    } else {
      ReadPairEscape(c, t);
    }
  }

  lemma ReadShortEscape(c: char, t: string)
    requires c == '"' || c == '\\' || c == '\n' || c == '\r' || c == '\t' || c as int == 8 || c as int == 12
    ensures ReadChar(Escape(c) + t) == Some((c, t))
  {
    assert |Escape(c)| == 2;
    assert (Escape(c) + t)[2..] == t;
  }

  lemma ReadBmpEscape(c: char, t: string)
    requires !(c == '"' || c == '\\' || c == '\n' || c == '\r' || c == '\t' || c as int == 8 || c as int == 12)
    requires !(0x20 <= c as int <= 0x7e) && c as int < 0x10000
    ensures ReadChar(Escape(c) + t) == Some((c, t))
  {
    var n := c as int;
    var s := Escape(c) + t;
    assert s == "\\u" + Hex4(n) + t;
    ReadHex4Of(n, []);
    assert s[2..6] == Hex4(n) + [];
    assert s[6..] == t;
  }

  lemma ReadPairEscape(c: char, t: string)
    requires c as int >= 0x10000
    ensures ReadChar(Escape(c) + t) == Some((c, t))
  {
    var n := c as int;
    var m := n - 0x10000;
    var hi, lo := 0xD800 + m / 0x400, 0xDC00 + m % 0x400;
    var s := Escape(c) + t;
    assert s == "\\u" + Hex4(hi) + "\\u" + Hex4(lo) + t;
    ReadHex4Of(hi, []);
    ReadHex4Of(lo, []);
    assert s[2..6] == Hex4(hi) + [];
    assert s[8..12] == Hex4(lo) + [];
    assert s[12..] == t;
    assert 0x10000 + (hi - 0xD800) * 0x400 + (lo - 0xDC00) == n;
  }

  lemma {:induction false} ReadEscapeAll(s: string, t: string)
    ensures ReadString(EscapeAll(s) + "\"" + t) == Some((s, t))
    decreases |s|
  {
    if s == [] {
      assert EscapeAll(s) + "\"" + t == "\"" + t;
    } else {
      var u := EscapeAll(s[1..]) + "\"" + t;
      assert EscapeAll(s) + "\"" + t == Escape(s[0]) + u;
      ReadEscape(s[0], u);
      ReadEscapeAll(s[1..], t);
      assert [s[0]] + s[1..] == s;
    }
  }

  lemma ReadQuoted(x: string, rest: string)
    ensures var s := Quote(x) + rest; s != [] && s[0] == '"' && ReadString(s[1..]) == Some((x, rest))
  {
    var s := Quote(x) + rest;
    assert s[1..] == EscapeAll(x) + "\"" + rest;
    ReadEscapeAll(x, rest);
  }

  lemma {:induction false} ReadItemsOf(xs: seq<string>)
    requires xs != []
    ensures ReadItems(Items(xs) + "]") == Some(xs)
    decreases |xs|
  {
    if |xs| == 1 {
      ReadQuoted(xs[0], "]");
      assert [xs[0]] == xs;
    } else {
      var more := Items(xs[1..]) + "]";
      assert Items(xs) + "]" == Quote(xs[0]) + (", " + more);
      ReadQuoted(xs[0], ", " + more);
      assert (", " + more)[2..] == more;
      ReadItemsOf(xs[1..]);
      assert [xs[0]] + xs[1..] == xs;
    }
  }

  /** `json.loads(json.dumps(xs)) == xs`: the serialized explanation loses nothing. */
  lemma LoadsDumps(xs: seq<string>)
    ensures Loads(Dumps(xs)) == Some(xs)
  {
    if xs != [] {
      ReadItemsOf(xs);
      assert Dumps(xs) == "[" + (Items(xs) + "]");
      assert Dumps(xs)[1..] == Items(xs) + "]";
    }
  }

  /** Every character `json.dumps` writes for a string is printable ASCII. */
  lemma EscapePrintable(c: char)
    ensures forall i | 0 <= i < |Escape(c)| :: 0x20 <= Escape(c)[i] as int <= 0x7e
  {
    var n := c as int;
    if !(c == '"' || c == '\\' || c == '\n' || c == '\r' || c == '\t' || n == 8 || n == 12 || 0x20 <= n <= 0x7e) {
      if n < 0x10000 {
        HexPrintable(n);
      } else {
        var m := n - 0x10000;
        HexPrintable(0xD800 + m / 0x400);
        HexPrintable(0xDC00 + m % 0x400);
      }
    }
  }

  lemma HexPrintable(n: int)
    requires 0 <= n < 0x10000
    ensures forall i | 0 <= i < 4 :: 0x20 <= Hex4(n)[i] as int <= 0x7e
  {
  }

  lemma {:induction false} EscapeAllPrintable(s: string)
    ensures forall i | 0 <= i < |EscapeAll(s)| :: 0x20 <= EscapeAll(s)[i] as int <= 0x7e
    decreases |s|
  {
    if s != [] {
      EscapePrintable(s[0]);
      EscapeAllPrintable(s[1..]);
    }
  }

  lemma {:induction false} ItemsPrintable(xs: seq<string>)
    requires xs != []
    ensures forall i | 0 <= i < |Items(xs)| :: 0x20 <= Items(xs)[i] as int <= 0x7e
    decreases |xs|
  {
    EscapeAllPrintable(xs[0]);
    if |xs| > 1 { ItemsPrintable(xs[1..]); }
  }

  /** The `ensure_ascii` promise: the serialized form is printable ASCII, whatever the text. */
  lemma DumpsPrintable(xs: seq<string>)
    ensures forall i | 0 <= i < |Dumps(xs)| :: 0x20 <= Dumps(xs)[i] as int <= 0x7e
  {
    if xs != [] { ItemsPrintable(xs); }
  }
}
