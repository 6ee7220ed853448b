/** Rust's `{:?}` formatting of a `&[&str]`, as used to embed the label list in
    the user prompt, together with a reader that recovers the list from the
    text. Every element is written as a quoted, escaped string literal and the
    elements are joined by ", " inside square brackets.

    Escaping follows `char::escape_debug` inside a string literal for every
    ASCII character: `"` and `\` are backslash-escaped, NUL, tab, line feed and
    carriage return become `\0`, `\t`, `\n`, `\r`, the remaining ASCII control
    characters become `\u{..}` in lower-case hexadecimal without leading zeros,
    and the single quote is left alone. Characters outside ASCII are written
    unchanged.
 */
module DebugFormat {

  import opened Wrappers

  const Quote: char := '"'
  const Backslash: char := '\\'

  /** A lower-case hexadecimal digit. */
  function HexDigit(n: nat): (c: char)
    requires n < 16
  {
    if n < 10 then ('0' as int + n) as char else ('a' as int + n - 10) as char
  }

  predicate IsHexDigit(c: char)
  {
    '0' <= c <= '9' || 'a' <= c <= 'f'
  }

  /** The value of a lower-case hexadecimal digit. */
  function HexValue(c: char): (n: nat)
    requires IsHexDigit(c)
    ensures n < 16
  {
    if c <= '9' then c as int - '0' as int else c as int - 'a' as int + 10
  }

  lemma HexRoundTrip(n: nat)
    requires n < 16
    ensures IsHexDigit(HexDigit(n)) && HexValue(HexDigit(n)) == n
  {
  }

  /** An ASCII control character without a short escape of its own. */
  predicate IsOtherControl(c: char)
  {
    (c as int < 0x20 || c as int == 0x7f) && c !in ['\0', '\t', '\n', '\r']
  }

  /** The hexadecimal digits of a control character's code, without leading zeros. */
  function ControlHex(c: char): (h: string)
    requires IsOtherControl(c)
    ensures 1 <= |h| <= 2
  {
    var n := c as int;
    if n < 16 then [HexDigit(n)] else [HexDigit(n / 16), HexDigit(n % 16)]
  }

  /** How one character of a label is written inside its quoted literal. */
  function EscapeChar(c: char): (e: string)
    ensures |e| >= 1 && e[0] != Quote
  {
    if c == Quote then [Backslash, Quote]
    else if c == Backslash then [Backslash, Backslash]
    else if c == '\0' then [Backslash, '0']
    else if c == '\t' then [Backslash, 't']
    else if c == '\n' then [Backslash, 'n']
    else if c == '\r' then [Backslash, 'r']
    else if IsOtherControl(c) then [Backslash, 'u', '{'] + ControlHex(c) + ['}']
    else [c]
  }

  /** A printable ASCII character other than `"` and `\`, which `{:?}`
      writes as itself. */
  predicate IsPlainAscii(c: char)
  {
    0x20 <= c as int < 0x7f && c != Quote && c != Backslash
  }

  /** The escaped body of a string literal, without the surrounding quotes. */
  function Escape(s: string): string
  {
    if |s| == 0 then [] else EscapeChar(s[0]) + Escape(s[1..])
  }

  /** `{:?}` of one `&str`: the escaped text between double quotes. */
  function DebugStr(s: string): string
  {
    [Quote] + Escape(s) + [Quote]
  }

  /** The list entries, separated by ", ". */
  function JoinEntries(labels: seq<string>): string
  {
    if |labels| == 0 then []
    else if |labels| == 1 then DebugStr(labels[0])
    else DebugStr(labels[0]) + ", " + JoinEntries(labels[1..])
  }

  /** `{:?}` of a `&[&str]`: `["a", "b"]`, and `[]` for no labels. */
  function DebugList(labels: seq<string>): string
  {
    "[" + JoinEntries(labels) + "]"
  }

  /** A label made of printable ASCII characters other than quotes and
      backslashes is written as itself between the quotes. */
  lemma {:induction false} EscapePlain(l: string)
    requires forall i :: 0 <= i < |l| ==> IsPlainAscii(l[i])
    ensures Escape(l) == l
    ensures DebugStr(l) == [Quote] + l + [Quote]
    decreases |l|
  {
    if |l| > 0 {
      assert EscapeChar(l[0]) == [l[0]];
      EscapePlain(l[1..]);
      assert [l[0]] + l[1..] == l;
    }
  }

  // ---------------------------------------------------------------------
  // Reading the format back

  /** Reads one character of a literal's body from the front of `s`: an escape
      sequence or a plain character. Returns the character and what follows. */
  function UnescapeChar(s: string): (r: Option<(char, string)>)
    ensures r.Some? ==> |r.value.1| < |s|
  {
    if |s| == 0 then None
    else if s[0] != Backslash then Some((s[0], s[1..]))
    else if |s| < 2 then None
    else if s[1] == Quote then Some((Quote, s[2..]))
    else if s[1] == Backslash then Some((Backslash, s[2..]))
    else if s[1] == '0' then Some(('\0', s[2..]))
    else if s[1] == 't' then Some(('\t', s[2..]))
    else if s[1] == 'n' then Some(('\n', s[2..]))
    else if s[1] == 'r' then Some(('\r', s[2..]))
    else if s[1] == 'u' && |s| >= 5 && s[2] == '{' && IsHexDigit(s[3]) && s[4] == '}' then
      Some((HexValue(s[3]) as char, s[5..]))
    else if s[1] == 'u' && |s| >= 6 && s[2] == '{' && IsHexDigit(s[3]) && IsHexDigit(s[4]) && s[5] == '}' then
      Some(((16 * HexValue(s[3]) + HexValue(s[4])) as char, s[6..]))
    else None
  }

  /** Reads a literal's body up to its closing quote. Returns the decoded text
      and what follows the closing quote. */
  function ParseStrBody(s: string): (r: Option<(string, string)>)
    ensures r.Some? ==> |r.value.1| < |s|
    decreases |s|
  {
    if |s| == 0 then None
    else if s[0] == Quote then Some(([], s[1..]))
    else match UnescapeChar(s)
      case None => None
      case Some((c, rest)) =>
        match ParseStrBody(rest)
        case None => None
        case Some((body, after)) => Some(([c] + body, after))
  }

  /** Reads a quoted literal from the front of `s`. */
  function ParseStr(s: string): (r: Option<(string, string)>)
    ensures r.Some? ==> |r.value.1| < |s|
  {
    if |s| == 0 || s[0] != Quote then None else ParseStrBody(s[1..])
  }

  /** Reads one or more entries separated by ", " and the closing bracket. */
  function ParseEntries(s: string): (r: Option<(seq<string>, string)>)
    decreases |s|
  {
    match ParseStr(s)
    case None => None
    case Some((entry, rest)) =>
      if |rest| >= 1 && rest[0] == ']' then Some(([entry], rest[1..]))
      else if |rest| >= 2 && rest[..2] == ", " then
        match ParseEntries(rest[2..])
        case None => None
        case Some((more, after)) => Some(([entry] + more, after))
      else None
  }

  /** Reads a bracketed list of literals from the front of `s`. Returns the
      labels and what follows the closing bracket. */
  function ParseList(s: string): (r: Option<(seq<string>, string)>)
  {
    if |s| == 0 || s[0] != '[' then None
    else if |s| >= 2 && s[1] == ']' then Some(([], s[2..]))
    else ParseEntries(s[1..])
  }

  // ---------------------------------------------------------------------
  // Round trips

  lemma UnescapeEscapeChar(c: char, tail: string)
    ensures UnescapeChar(EscapeChar(c) + tail) == Some((c, tail))
  {
    var s := EscapeChar(c) + tail;
    if IsOtherControl(c) {
      var n := c as int;
      if n < 16 {
        HexRoundTrip(n);
        assert s == [Backslash, 'u', '{', HexDigit(n), '}'] + tail;
        assert s[5..] == tail;
      } else {
        HexRoundTrip(n / 16);
        HexRoundTrip(n % 16);
        assert s == [Backslash, 'u', '{', HexDigit(n / 16), HexDigit(n % 16), '}'] + tail;
        assert s[6..] == tail;
      }
    } else if c in [Quote, Backslash, '\0', '\t', '\n', '\r'] {
      assert s[2..] == tail;
    } else {
      assert s[1..] == tail;
    }
  }

  /** The body reader takes back exactly what `Escape` wrote, stopping at the
      closing quote: a label cannot end its literal early. */
  lemma {:induction false} ParseStrBodyEscape(l: string, tail: string)
    ensures ParseStrBody(Escape(l) + [Quote] + tail) == Some((l, tail))
    decreases |l|
  {
    var s := Escape(l) + [Quote] + tail;
    if |l| == 0 {
      assert s == [Quote] + tail;
      assert s[1..] == tail;
    } else {
      var e := EscapeChar(l[0]);
      var rest := Escape(l[1..]) + [Quote] + tail;
      assert s == e + rest;
      UnescapeEscapeChar(l[0], rest);
      ParseStrBodyEscape(l[1..], tail);
      assert [l[0]] + l[1..] == l;
    }
  }

  lemma ParseStrDebugStr(l: string, tail: string)
    ensures ParseStr(DebugStr(l) + tail) == Some((l, tail))
  {
    var s := DebugStr(l) + tail;
    assert s[1..] == Escape(l) + [Quote] + tail;
    ParseStrBodyEscape(l, tail);
  }

  /** One step of `ParseEntries`: a literal followed by the closing bracket. */
  lemma ParseEntriesLast(l: string, tail: string)
    ensures ParseEntries(DebugStr(l) + "]" + tail) == Some(([l], tail))
  {
    var rest := "]" + tail;
    assert DebugStr(l) + "]" + tail == DebugStr(l) + rest;
    ParseStrDebugStr(l, rest);
    assert rest[1..] == tail;
  }

  /** One step of `ParseEntries`: a literal followed by a separator. */
  lemma ParseEntriesNext(l: string, more: string)
    requires ParseEntries(more) != None
    ensures ParseEntries(DebugStr(l) + ", " + more)
         == Some(([l] + ParseEntries(more).value.0, ParseEntries(more).value.1))
  {
    var rest := ", " + more;
    assert DebugStr(l) + ", " + more == DebugStr(l) + rest;
    ParseStrDebugStr(l, rest);
    assert rest[..2] == ", ";
    assert rest[2..] == more;
  }

  lemma {:induction false} ParseEntriesJoin(labels: seq<string>, tail: string)
    requires |labels| >= 1
    ensures ParseEntries(JoinEntries(labels) + "]" + tail) == Some((labels, tail))
    decreases |labels|
  {
    if |labels| == 1 {
      ParseEntriesLast(labels[0], tail);
      assert JoinEntries(labels) == DebugStr(labels[0]);
      assert [labels[0]] == labels;
    } else {
      var more := JoinEntries(labels[1..]) + "]" + tail;
      ParseEntriesJoin(labels[1..], tail);
      ParseEntriesNext(labels[0], more);
      assert JoinEntries(labels) + "]" + tail == DebugStr(labels[0]) + ", " + more;
      assert [labels[0]] + labels[1..] == labels;
    }
  }

  /** Reading the formatted list back gives the labels exactly (same texts,
      same order) and leaves whatever followed the closing bracket. */
  lemma ParseDebugList(labels: seq<string>, tail: string)
    ensures ParseList(DebugList(labels) + tail) == Some((labels, tail))
  {
    var s := DebugList(labels) + tail;
    if |labels| == 0 {
      assert s == "[]" + tail;
      assert s[2..] == tail;
    } else {
      assert s[1..] == JoinEntries(labels) + "]" + tail;
      assert DebugStr(labels[0])[0] == Quote;
      assert JoinEntries(labels)[0] == Quote;
      assert s[1] == Quote;
      ParseEntriesJoin(labels, tail);
    }
  }
}
