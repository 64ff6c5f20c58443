/**
 * The compact JSON text serde_json writes for a `NameTagDB` (used by the
 * export at src/main.rs:146): one object, fields in declaration order, no
 * whitespace. Strings are escaped as serde_json does: `"` and `\` get a
 * backslash, the control characters backspace, tab, line feed, form feed
 * and carriage return get their short escapes, the other control characters
 * below 0x20 get `\u00XX` with lower-case hex digits, and everything else is
 * written as is.
 */
module Json {
  import opened Wrappers
  import opened Numbers
  import opened Records

  function HexDigit(d: nat): (c: char)
    requires d < 16
  {
    if d < 10 then DigitChar(d) else ('a' as int + d - 10) as char
  }

  function HexValue(c: char): Option<nat>
  {
    if '0' <= c <= '9' then Some(c as int - '0' as int)
    else if 'a' <= c <= 'f' then Some(c as int - 'a' as int + 10)
    else if 'A' <= c <= 'F' then Some(c as int - 'A' as int + 10)
    else None
  }

  function EscapeChar(c: char): string
  {
    if c == '"' then "\\\""
    else if c == '\\' then "\\\\"
    else if c as int == 8 then "\\b"
    else if c as int == 9 then "\\t"
    else if c as int == 10 then "\\n"
    else if c as int == 12 then "\\f"
    else if c as int == 13 then "\\r"
    else if c as int < 0x20 then "\\u00" + [HexDigit(c as int / 16), HexDigit(c as int % 16)]
    else [c]
  }

  function Escape(s: string): string
  {
    if s == [] then [] else EscapeChar(s[0]) + Escape(s[1..])
  }

  function Quote(s: string): string
  {
    "\"" + Escape(s) + "\""
  }

  function ToJson(r: NameTagDB): string
  {
    "{\"ID\":" + Quote(r.id)
    + ",\"first_name\":" + Quote(r.firstName)
    + ",\"last_name\":" + Quote(r.lastName)
    + ",\"grad_year\":" + SignedDecimal(r.gradYear)
    + ",\"badge\":" + (if r.badge then "true" else "false")
    + ",\"creation_date\":" + Quote(r.creationDate)
    + "}"
  }

  /** Reading the body of a JSON string back (an independent decoder for the
      escapes JSON allows; surrogate pairs are not decoded). */
  function Unescape(s: string): Option<string>
  {
    if s == [] then Some([])
    else if s[0] == '\\' then
      if |s| < 2 then None
      else
        var short := UnescapeShort(s[1]);
        if short.Some? then Prepend(short.value, Unescape(s[2..]))
        else if s[1] == 'u' && |s| >= 6 then
          var code := HexQuad(s[2..6]);
          if code.Some? && (code.value < 0xD800 || 0xDFFF < code.value) then
            Prepend(code.value as char, Unescape(s[6..]))
          else None
        else None
    else if s[0] == '"' || (s[0] as int) < 0x20 then None
    else Prepend(s[0], Unescape(s[1..]))
  }

  function UnescapeShort(c: char): Option<char>
  {
    if c == '"' then Some('"')
    else if c == '\\' then Some('\\')
    else if c == '/' then Some('/')
    else if c == 'b' then Some(8 as char)
    else if c == 'f' then Some(12 as char)
    else if c == 'n' then Some(10 as char)
    else if c == 'r' then Some(13 as char)
    else if c == 't' then Some(9 as char)
    else None
  }

  function HexQuad(s: string): (r: Option<nat>)
    requires |s| == 4
    ensures r.Some? ==> r.value < 0x10000
  {
    match (HexValue(s[0]), HexValue(s[1]), HexValue(s[2]), HexValue(s[3]))
    case (Some(a), Some(b), Some(c), Some(d)) =>
      if a < 16 && b < 16 && c < 16 && d < 16 then Some(a * 4096 + b * 256 + c * 16 + d) else None
    case _ => None
  }

  function Prepend(c: char, rest: Option<string>): Option<string>
  {
    if rest.Some? then Some([c] + rest.value) else None
  }

  lemma HexDigitValue(d: nat)
    requires d < 16
    ensures HexValue(HexDigit(d)) == Some(d)
  {
  }

  lemma UnescapeStep(c: char, rest: string)
    ensures Unescape(EscapeChar(c) + rest) == Prepend(c, Unescape(rest))
  {
    if c as int < 0x20 && c as int !in {8, 9, 10, 12, 13} {
      UnescapeControl(c, rest);
    } else if c == '"' || c == '\\' || c as int < 0x20 {
      UnescapeShortStep(c, rest);
    } else {
      var s := EscapeChar(c) + rest;
      assert s[1..] == rest;
    }
  }

  lemma UnescapeShortStep(c: char, rest: string)
    requires c == '"' || c == '\\' || c as int in {8, 9, 10, 12, 13}
    ensures Unescape(EscapeChar(c) + rest) == Prepend(c, Unescape(rest))
  {
    var s := EscapeChar(c) + rest;
    assert |EscapeChar(c)| == 2 && s[0] == '\\';
    assert UnescapeShort(s[1]) == Some(c);
    assert s[2..] == rest;
  }

  lemma UnescapeControl(c: char, rest: string)
    requires c as int < 0x20 && c as int !in {8, 9, 10, 12, 13}
    ensures Unescape(EscapeChar(c) + rest) == Prepend(c, Unescape(rest))
  {
    var hi, lo := c as int / 16, c as int % 16;
    var e := "\\u00" + [HexDigit(hi), HexDigit(lo)];
    assert EscapeChar(c) == e;
    var s := e + rest;
    HexDigitValue(hi);
    HexDigitValue(lo);
    assert s[2..6] == ['0', '0', HexDigit(hi), HexDigit(lo)];
    assert HexQuad(s[2..6]) == Some(c as int);
    assert UnescapeShort(s[1]) == None;
    assert s[6..] == rest;
  }

  /** Unescaping what the escaper wrote gives the original text back, so the
      escaping loses nothing. */
  lemma {:induction false} EscapeRoundTrip(s: string)
    ensures Unescape(Escape(s)) == Some(s)
  {
    if s != [] {
      EscapeRoundTrip(s[1..]);
      UnescapeStep(s[0], Escape(s[1..]));
      assert [s[0]] + s[1..] == s;
    }
  }

  /** Distinct strings are written as distinct JSON strings. */
  lemma EscapeInjective(a: string, b: string)
    ensures Escape(a) == Escape(b) <==> a == b
  {
    EscapeRoundTrip(a);
    EscapeRoundTrip(b);
  }
}
