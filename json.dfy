/**
 * The part of JSON that the favorites persistence relies on: `JSON.stringify`
 * of an array of strings, and `JSON.parse` of a text that should hold one.
 *
 * Encode writes what `JSON.stringify` writes for such an array: no
 * whitespace, `"` and `\` escaped, the control characters below U+0020
 * written as `\b \t \n \f \r` or as `\u00xx` with lower-case hex digits.
 * Decode accepts JSON whitespace between tokens and every JSON string
 * escape; anything that is not an array of strings is a failure (None).
 */
module Json {
  import opened Wrappers

  /** The four characters JSON allows between tokens. */
  predicate IsJsonWhitespace(c: char) {
    c == ' ' || c == '\t' || c == '\n' || c == '\r'
  }

  function HexDigit(n: nat): (c: char)
    requires n < 16
  {
    if n < 10 then ('0' as int + n) as char else ('a' as int + n - 10) as char
  }

  /** The value of a hex digit, in either case. */
  function HexValue(c: char): (r: Option<nat>)
    ensures r.Some? ==> r.value < 16
  {
    if '0' <= c <= '9' then Some(c as int - '0' as int)
    else if 'a' <= c <= 'f' then Some(c as int - 'a' as int + 10)
    else if 'A' <= c <= 'F' then Some(c as int - 'A' as int + 10)
    else None
  }

  lemma HexDigitValue(n: nat)
    requires n < 16
    ensures HexValue(HexDigit(n)) == Some(n)
  {
  }

  /** How `JSON.stringify` writes one character inside a string literal. */
  function EscapeChar(c: char): (r: string)
    ensures r != []
  {
    if c == '"' then ['\\', '"']
    else if c == '\\' then ['\\', '\\']
    else if c as int == 0x08 then ['\\', 'b']
    else if c as int == 0x09 then ['\\', 't']
    else if c as int == 0x0A then ['\\', 'n']
    else if c as int == 0x0C then ['\\', 'f']
    else if c as int == 0x0D then ['\\', 'r']
    else if c as int < 0x20 then ['\\', 'u', '0', '0', HexDigit(c as int / 16), HexDigit(c as int % 16)]
    else [c]
  }

  function Escape(s: string): (r: string)
    ensures |r| >= |s|
  {
    if s == [] then [] else EscapeChar(s[0]) + Escape(s[1..])
  }

  function Quote(s: string): (r: string) {
    ['"'] + (Escape(s) + ['"'])
  }

  /** The elements after the opening bracket, comma-separated, and the closing bracket. */
  function EncodeTail(ids: seq<string>): (r: string) {
    if ids == [] then [']']
    else if |ids| == 1 then Quote(ids[0]) + [']']
    else Quote(ids[0]) + ([','] + EncodeTail(ids[1..]))
  }

  /** `JSON.stringify(ids)`; never the empty text, so it always reads back as present. */
  function Encode(ids: seq<string>): (r: string)
    ensures r != [] && r[0] == '['
  {
    ['['] + EncodeTail(ids)
  }

  /** Drops leading JSON whitespace; the result is a suffix of the input. */
  function SkipWs(s: string): (r: string)
    ensures |r| <= |s|
    ensures r == [] || !IsJsonWhitespace(r[0])
  {
    if s != [] && IsJsonWhitespace(s[0]) then SkipWs(s[1..]) else s
  }

  /** Four hex digits, as the code unit they denote. */
  function ParseHex4(s: string): (r: Option<nat>)
    requires |s| == 4
    ensures r.Some? ==> r.value < 0x1_0000
  {
    match (HexValue(s[0]), HexValue(s[1]), HexValue(s[2]), HexValue(s[3]))
    case (Some(a), Some(b), Some(c), Some(d)) => Some(a * 4096 + b * 256 + c * 16 + d)
    case _ => None
  }

  /**
   * The escape that follows a backslash. A `\u` escape naming a surrogate
   * code unit is refused, since a character here is a Unicode scalar value.
   */
  function ParseEscape(s: string): (r: Option<(char, string)>)
    ensures r.Some? ==> |r.value.1| < |s|
  {
    if s == [] then None
    else if s[0] == '"' then Some(('"', s[1..]))
    else if s[0] == '\\' then Some(('\\', s[1..]))
    else if s[0] == '/' then Some(('/', s[1..]))
    else if s[0] == 'b' then Some((0x08 as char, s[1..]))
    else if s[0] == 't' then Some((0x09 as char, s[1..]))
    else if s[0] == 'n' then Some((0x0A as char, s[1..]))
    else if s[0] == 'f' then Some((0x0C as char, s[1..]))
    else if s[0] == 'r' then Some((0x0D as char, s[1..]))
    else if s[0] == 'u' && |s| >= 5 then
      match ParseHex4(s[1..5])
      case None => None
      case Some(code) =>
        if code < 0xD800 || 0xE000 <= code then Some((code as char, s[5..])) else None
    else None
  }

  /** The body of a string literal up to and including its closing quote. */
  function ParseBody(s: string): (r: Option<(string, string)>)
    ensures r.Some? ==> |r.value.1| < |s|
    decreases |s|
  {
    if s == [] then None
    else if s[0] == '"' then Some(([], s[1..]))
    else if s[0] == '\\' then
      match ParseEscape(s[1..])
      case None => None
      case Some((c, rest)) =>
        match ParseBody(rest)
        case None => None
        case Some((x, rest')) => Some(([c] + x, rest'))
    else if (s[0] as int) < 0x20 then None
    else
      match ParseBody(s[1..])
      case None => None
      case Some((x, rest)) => Some(([s[0]] + x, rest))
  }

  function ParseString(s: string): (r: Option<(string, string)>)
    ensures r.Some? ==> |r.value.1| < |s|
  {
    if s != [] && s[0] == '"' then ParseBody(s[1..]) else None
  }

  /**
   * What follows an element, after whitespace: the closing bracket (`true`)
   * or a comma and the whitespace after it (`false`), with the text left over.
   */
  function ParseSeparator(s: string): (r: Option<(bool, string)>)
    ensures r.Some? ==> |r.value.1| < |s|
  {
    var t := SkipWs(s);
    if t == [] then None
    else if t[0] == ']' then Some((true, t[1..]))
    else if t[0] == ',' then Some((false, SkipWs(t[1..])))
    else None
  }

  /** One or more string elements, separated by commas, up to the closing bracket. */
  function ParseItems(s: string): (r: Option<(seq<string>, string)>)
    ensures r.Some? ==> |r.value.1| < |s| && r.value.0 != []
    decreases |s|
  {
    match ParseString(s)
    case None => None
    case Some((x, rest)) =>
      match ParseSeparator(rest)
      case None => None
      case Some((closed, rest')) =>
        if closed then Some(([x], rest'))
        else
          match ParseItems(rest')
          case None => None
          case Some((xs, rest'')) => Some(([x] + xs, rest''))
  }

  /** `JSON.parse(s)` where the result must be an array of strings. */
  function Decode(s: string): (r: Option<seq<string>>) {
    var t := SkipWs(s);
    if t == [] || t[0] != '[' then None
    else
      var u := SkipWs(t[1..]);
      if u != [] && u[0] == ']' then
        if SkipWs(u[1..]) == [] then Some([]) else None
      else
        match ParseItems(u)
        case None => None
        case Some((items, rest)) => if SkipWs(rest) == [] then Some(items) else None
  }

  /** Reading one escaped character puts it in front of what the rest reads as. */
  lemma EscapeCharParses(c: char, tail: string, y: string, rest: string)
    requires ParseBody(tail) == Some((y, rest))
    ensures ParseBody(EscapeChar(c) + tail) == Some(([c] + y, rest))
  {
    var s := EscapeChar(c) + tail;
    if c == '"' || c == '\\' || c as int in {0x08, 0x09, 0x0A, 0x0C, 0x0D} {
      assert |EscapeChar(c)| == 2 && s[0] == '\\' && s[2..] == tail;
      assert ParseEscape(s[1..]) == Some((c, tail));
    } else if c as int < 0x20 {
      var n := c as int;
      assert s[0] == '\\' && s[1..][0] == 'u' && s[1..][5..] == tail;
      assert s[1..][1..5] == ['0', '0', HexDigit(n / 16), HexDigit(n % 16)];
      HexDigitValue(n / 16);
      HexDigitValue(n % 16);
      assert ParseHex4(s[1..][1..5]) == Some(n);
      assert ParseEscape(s[1..]) == Some((c, tail));
    } else {
      assert s[0] == c && s[1..] == tail;
    }
  }

  /** A string literal's body, escaped, reads back as the string itself. */
  lemma {:induction false} BodyRoundTrip(x: string, rest: string)
    ensures ParseBody(Escape(x) + ['"'] + rest) == Some((x, rest))
    decreases |x|
  {
    if x == [] {
      assert Escape(x) + ['"'] + rest == ['"'] + rest;
    } else {
      var tail := Escape(x[1..]) + ['"'] + rest;
      assert Escape(x) + ['"'] + rest == EscapeChar(x[0]) + tail;
      BodyRoundTrip(x[1..], rest);
      EscapeCharParses(x[0], tail, x[1..], rest);
      assert [x[0]] + x[1..] == x;
    }
  }

  lemma EncodeTailStartsWithQuote(ids: seq<string>)
    requires ids != []
    ensures EncodeTail(ids) != [] && EncodeTail(ids)[0] == '"'
  {
  }

  /** A quoted string reads back as itself, leaving what follows it. */
  lemma StringRoundTrip(x: string, after: string)
    ensures ParseString(Quote(x) + after) == Some((x, after))
  {
    var s := Quote(x) + after;
    assert s[0] == '"';
    assert s[1..] == Escape(x) + ['"'] + after;
    BodyRoundTrip(x, after);
  }

  /** An element that is followed by the closing bracket ends the array. */
  lemma ItemsLast(s: string, x: string, rest: string)
    requires ParseString(s) == Some((x, [']'] + rest))
    ensures ParseItems(s) == Some(([x], rest))
  {
    var after := [']'] + rest;
    assert SkipWs(after) == after;
    assert after[1..] == rest;
    assert ParseSeparator(after) == Some((true, rest));
  }

  /** An element that is followed by a comma continues with the elements after it. */
  lemma ItemsCons(s: string, x: string, more: string, xs: seq<string>, rest: string)
    requires more != [] && more[0] == '"'
    requires ParseString(s) == Some((x, [','] + more))
    requires ParseItems(more) == Some((xs, rest))
    ensures ParseItems(s) == Some(([x] + xs, rest))
  {
    var after := [','] + more;
    assert SkipWs(after) == after;
    assert after[1..] == more;
    assert SkipWs(more) == more;
    assert ParseSeparator(after) == Some((false, more));
  }

  /** The encoded elements, with the closing bracket, read back as the elements. */
  lemma {:induction false} ItemsRoundTrip(ids: seq<string>)
    requires ids != []
    ensures ParseItems(EncodeTail(ids)) == Some((ids, []))
    decreases |ids|
  {
    var s := EncodeTail(ids);
    if |ids| == 1 {
      StringRoundTrip(ids[0], [']']);
      assert [']'] + [] == [']'];
      ItemsLast(s, ids[0], []);
      assert [ids[0]] == ids;
    } else {
      var more := EncodeTail(ids[1..]);
      StringRoundTrip(ids[0], [','] + more);
      EncodeTailStartsWithQuote(ids[1..]);
      ItemsRoundTrip(ids[1..]);
      ItemsCons(s, ids[0], more, ids[1..], []);
      assert [ids[0]] + ids[1..] == ids;
    }
  }

  /** `JSON.parse(JSON.stringify(ids))` gives back `ids`, element for element. */
  lemma DecodeEncode(ids: seq<string>)
    ensures Decode(Encode(ids)) == Some(ids)
  {
    var s := Encode(ids);
    assert SkipWs(s) == s;
    var t := EncodeTail(ids);
    assert s[1..] == t;
    if ids == [] {
      assert SkipWs(t) == t;
    } else {
      EncodeTailStartsWithQuote(ids);
      assert SkipWs(t) == t;
      ItemsRoundTrip(ids);
    }
  }
}
