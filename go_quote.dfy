/**
 * Go's `%q` verb (`strconv.Quote`) on strings and on slices of strings, together with a
 * decoder for the quoted form that serves as its inverse.
 */
module GoQuote {
  import opened Wrappers
  import opened GoStrings

  const HexDigits := "0123456789abcdef"

  /** The lower-case hexadecimal digit for `n`. */
  function HexDigit(n: nat): char
    requires n < 16
  {
    HexDigits[n]
  }

  /** The value of a hexadecimal digit of either case, as `strconv.unhex` reads it. */
  function HexValue(c: char): (r: Option<nat>)
    ensures r.Some? ==> r.value < 16
  {
    if '0' <= c <= '9' then Some(c as int - '0' as int)
    else if 'a' <= c <= 'f' then Some(c as int - 'a' as int + 10)
    else if 'A' <= c <= 'F' then Some(c as int - 'A' as int + 10)
    else None
  }

  /** Four lower-case hexadecimal digits for a value below 0x10000, most significant first. */
  function Hex4(v: nat): string
    requires v < 0x1_0000
  {
    [HexDigit(v / 0x1000), HexDigit(v / 0x100 % 16), HexDigit(v / 16 % 16), HexDigit(v % 16)]
  }

  /**
   * `strconv.IsPrint`, exact on Latin-1 (U+0000 to U+00FF); every rune above U+00FF is
   * taken to be printable.
   */
  predicate IsPrint(c: char) {
    if c as int <= 0xFF then 0x20 <= c as int <= 0x7E || (0xA1 <= c as int && c as int != 0xAD)
    else true
  }

  /** How `strconv.Quote` writes one rune between double quotes. */
  function EscapeRune(c: char): string {
    if c == '"' || c == '\\' then ['\\', c]
    else if IsPrint(c) then [c]
    else if c == '\U{7}' then "\\a"
    else if c == '\U{8}' then "\\b"
    else if c == '\U{C}' then "\\f"
    else if c == '\n' then "\\n"
    else if c == '\r' then "\\r"
    else if c == '\t' then "\\t"
    else if c == '\U{B}' then "\\v"
    else if c < ' ' || c == '\U{7F}' then ['\\', 'x', HexDigit(c as int / 16), HexDigit(c as int % 16)]
    else ['\\', 'u'] + Hex4(c as int)
  }

  /** The escaped text of `t`, rune by rune. */
  function EscapeAll(t: string): string {
    if t == [] then [] else EscapeRune(t[0]) + EscapeAll(t[1..])
  }

  /** `strconv.Quote(t)`, which is what `fmt.Sprintf("%q", t)` prints for a string. */
  function Quote(t: string): string {
    ['"'] + EscapeAll(t) + ['"']
  }

  /** Each string of `ts` quoted, in order. */
  function QuoteEach(ts: seq<string>): (qs: seq<string>)
    ensures |qs| == |ts|
  {
    if ts == [] then [] else [Quote(ts[0])] + QuoteEach(ts[1..])
  }

  /**
   * `fmt.Sprintf("%q", ts)` for a slice of strings: the quoted elements separated by one
   * space, between square brackets.
   */
  function QuoteSlice(ts: seq<string>): string {
    "[" + Join(QuoteEach(ts), " ") + "]"
  }

  // ---------------------------------------------------------------------------
  // Decoding

  /**
   * The escape sequence at the start of `s` (which begins with a backslash): the rune it
   * stands for and the number of characters it occupies.
   */
  function UnescapeAt(s: string): (r: Option<(char, nat)>)
    requires |s| > 0 && s[0] == '\\'
    ensures r.Some? ==> 2 <= r.value.1 <= |s|
  {
    if |s| < 2 then None
    else if s[1] == '\\' || s[1] == '"' then Some((s[1], 2))
    else if s[1] == 'a' then Some(('\U{7}', 2))
    else if s[1] == 'b' then Some(('\U{8}', 2))
    else if s[1] == 'f' then Some(('\U{C}', 2))
    else if s[1] == 'n' then Some(('\n', 2))
    else if s[1] == 'r' then Some(('\r', 2))
    else if s[1] == 't' then Some(('\t', 2))
    else if s[1] == 'v' then Some(('\U{B}', 2))
    else if s[1] == 'x' then
      if |s| < 4 then None
      else match (HexValue(s[2]), HexValue(s[3]))
        case (Some(hi), Some(lo)) => Some(((16 * hi + lo) as char, 4))
        case _ => None
    else if s[1] == 'u' then
      if |s| < 6 then None
      else match (HexValue(s[2]), HexValue(s[3]), HexValue(s[4]), HexValue(s[5]))
        case (Some(d0), Some(d1), Some(d2), Some(d3)) =>
          var v := 0x1000 * d0 + 0x100 * d1 + 16 * d2 + d3;
          if 0xD800 <= v < 0xE000 then None else Some((v as char, 6))
        case _ => None
    else None
  }

  /**
   * Reads escaped text up to the closing double quote: the decoded text and what follows
   * the closing quote.
   */
  function ParseBody(s: string): (r: Option<(string, string)>)
    ensures r.Some? ==> |r.value.1| < |s|
    decreases |s|
  {
    if s == [] then None
    else if s[0] == '"' then Some(([], s[1..]))
    else if s[0] == '\\' then
      match UnescapeAt(s)
      case None => None
      case Some((c, n)) =>
        match ParseBody(s[n..])
        case None => None
        case Some((t, rest)) => Some(([c] + t, rest))
    else
      match ParseBody(s[1..])
      case None => None
      case Some((t, rest)) => Some(([s[0]] + t, rest))
  }

  /** Reads one double-quoted string at the start of `s`: its text and what follows it. */
  function ParseQuoted(s: string): (r: Option<(string, string)>)
    ensures r.Some? ==> |r.value.1| < |s|
  {
    if |s| > 0 && s[0] == '"' then ParseBody(s[1..]) else None
  }

  // ---------------------------------------------------------------------------
  // Properties

  lemma HexDigitValue(n: nat)
    requires n < 16
    ensures HexValue(HexDigit(n)) == Some(n)
  {
  }

  lemma Hex4Value(v: nat)
    requires v < 0x1_0000
    ensures 0x1000 * (v / 0x1000) + 0x100 * (v / 0x100 % 16) + 16 * (v / 16 % 16) + v % 16 == v
  {
    assert v / 16 == 16 * (v / 0x100) + v / 16 % 16;
    assert v / 0x100 == 16 * (v / 0x1000) + v / 0x100 % 16;
  }

  /** Decoding an escaped rune gives the rune back; a rune written as itself is neither quote nor backslash. */
  lemma UnescapeRune(c: char, tail: string)
    ensures var e := EscapeRune(c);
      && |e| > 0
      && (e[0] == '\\' ==> UnescapeAt(e + tail) == Some((c, |e|)))
      && (e[0] != '\\' ==> e == [c] && c != '"')
  {
    if c == '"' || c == '\\' || IsPrint(c) {
    } else if c < ' ' || c == '\U{7F}' {
      if c != '\U{7}' && c != '\U{8}' && c != '\U{C}' && c != '\n' && c != '\r' && c != '\t' && c != '\U{B}' {
        UnescapeHex2(c, tail);
      }
    } else {
      UnescapeHex4(c, tail);
    }
  }

  /** A control rune without a short escape, written as `\xNN`, is read back. */
  lemma UnescapeHex2(c: char, tail: string)
    requires c as int < 0x80
    ensures UnescapeAt(['\\', 'x', HexDigit(c as int / 16), HexDigit(c as int % 16)] + tail) == Some((c, 4))
  {
    var v := c as int;
    var s := ['\\', 'x', HexDigit(v / 16), HexDigit(v % 16)] + tail;
    HexDigitValue(v / 16);
    HexDigitValue(v % 16);
    assert s[1] == 'x' && s[2] == HexDigit(v / 16) && s[3] == HexDigit(v % 16);
    assert 16 * (v / 16) + v % 16 == v;
  }

  /** A non-printable Latin-1 rune, written as `\u00NN`, is read back. */
  lemma UnescapeHex4(c: char, tail: string)
    requires 0x80 <= c as int <= 0xFF && !IsPrint(c)
    ensures var e := EscapeRune(c);
      && e == ['\\', 'u'] + Hex4(c as int)
      && UnescapeAt(e + tail) == Some((c, 6))
  {
    assert c != '"' && c != '\\' && c != '\U{7}' && c != '\U{8}' && c != '\U{C}';
    assert c != '\n' && c != '\r' && c != '\t' && c != '\U{B}';
    assert !(c < ' ' || c == '\U{7F}');
    assert EscapeRune(c) == ['\\', 'u'] + Hex4(c as int);
    UnescapeU(c as int, tail);
  }

  /** Four hex digits after `\u` are read back as the rune they spell. */
  lemma UnescapeU(v: nat, tail: string)
    requires v < 0xD800
    ensures UnescapeAt(['\\', 'u'] + Hex4(v) + tail) == Some((v as char, 6))
  {
    var s := ['\\', 'u'] + Hex4(v) + tail;
    HexDigitValue(v / 0x1000);
    HexDigitValue(v / 0x100 % 16);
    HexDigitValue(v / 16 % 16);
    HexDigitValue(v % 16);
    Hex4Value(v);
    assert s[1] == 'u' && |s| >= 6;
    assert s[2] == HexDigit(v / 0x1000) && s[3] == HexDigit(v / 0x100 % 16);
    assert s[4] == HexDigit(v / 16 % 16) && s[5] == HexDigit(v % 16);
  }

  /** Escaped text followed by a closing quote decodes to the original text. */
  lemma {:induction false} ParseEscaped(t: string, rest: string)
    ensures ParseBody(EscapeAll(t) + ['"'] + rest) == Some((t, rest))
    decreases |t|
  {
    if t == [] {
      assert EscapeAll(t) + ['"'] + rest == ['"'] + rest;
      assert (['"'] + rest)[1..] == rest;
    } else {
      var e := EscapeRune(t[0]);
      var tail := EscapeAll(t[1..]) + ['"'] + rest;
      assert EscapeAll(t) + ['"'] + rest == e + tail;
      ParseEscaped(t[1..], rest);
      UnescapeRune(t[0], tail);
      assert (e + tail)[|e|..] == tail;
      assert t == [t[0]] + t[1..];
    }
  }

  /** `ParseQuoted` inverts `Quote`: quoting loses nothing. */
  lemma QuoteRoundTrip(t: string, rest: string)
    ensures ParseQuoted(Quote(t) + rest) == Some((t, rest))
  {
    var body := EscapeAll(t) + ['"'] + rest;
    ParseEscaped(t, rest);
    assert Quote(t) + rest == ['"'] + body;
    assert (['"'] + body)[1..] == body;
  }

  lemma EscapeRuneNoSpace(c: char)
    requires c != ' '
    ensures ' ' !in EscapeRune(c)
  {
    var e := EscapeRune(c);
    if !(c == '"' || c == '\\' || IsPrint(c)) {
      assert forall n: nat :: n < 16 ==> HexDigit(n) != ' ';
      if c < ' ' || c == '\U{7F}' {
        assert forall i :: 0 <= i < |e| ==> e[i] != ' ';
      } else {
        assert forall i :: 0 <= i < |e| ==> e[i] != ' ';
      }
    }
  }

  /** Quoting introduces no space character: a space in the output comes from a space in the input. */
  lemma {:induction false} EscapeAllNoSpace(t: string)
    requires ' ' !in t
    ensures ' ' !in EscapeAll(t)
    decreases |t|
  {
    if t != [] {
      assert t[0] in t;
      assert t == [t[0]] + t[1..];
      EscapeRuneNoSpace(t[0]);
      EscapeAllNoSpace(t[1..]);
    }
  }

  lemma QuoteNoSpace(t: string)
    requires ' ' !in t
    ensures ' ' !in Quote(t)
  {
    EscapeAllNoSpace(t);
  }

  /** Printable text without quotes or backslashes is only wrapped in double quotes. */
  lemma {:induction false} QuotePlain(t: string)
    requires forall i :: 0 <= i < |t| ==> IsPrint(t[i]) && t[i] != '"' && t[i] != '\\'
    ensures Quote(t) == ['"'] + t + ['"']
  {
    EscapePlain(t);
  }

  lemma {:induction false} EscapePlain(t: string)
    requires forall i :: 0 <= i < |t| ==> IsPrint(t[i]) && t[i] != '"' && t[i] != '\\'
    ensures EscapeAll(t) == t
    decreases |t|
  {
    if t != [] {
      EscapePlain(t[1..]);
      assert t == [t[0]] + t[1..];
    }
  }

  /**
   * A control character such as U+0007 is written with a Go escape (`\a`) that JSON does
   * not define.
   */
  lemma QuoteBell()
    ensures Quote("\U{7}") == "\"\\a\""
  {
  }
}
