/**
 * The greeting label shown under the input box (src/main.rs:106-122). It
 * reads the raw buffer: no lower-casing and no `%` handling. Three tokens
 * whose third is a `u16` give "Welcome {first} {last}, Graduation year: {v}"
 * with `v` reprinted in decimal; any other non-empty buffer is echoed after
 * "Welcome "; an empty buffer gives an empty label.
 */
module Greetings {
  import opened Wrappers
  import opened Ascii
  import opened Numbers
  import opened NameTags

  /** Whether the label shows a graduation year for this buffer. */
  predicate ShowsYear(buffer: string)
  {
    var text := Tokens(buffer);
    |text| == 3 && ParseU16(text[2]).Some?
  }

  function Greeting(buffer: string): (shown: string)
    requires IsAscii(buffer)
    ensures shown == [] <==> buffer == []
    ensures shown != [] ==> |shown| >= 8 && shown[..8] == "Welcome "
    ensures !ShowsYear(buffer) && buffer != [] ==> shown[8..] == buffer
  {
    var text := Tokens(buffer);
    var name := if buffer != [] then "Welcome " + buffer else buffer;
    if |text| == 3 && ParseU16(text[2]).Some? then
      "Welcome " + text[0] + " " + text[1] + ", Graduation year: " + Decimal(ParseU16(text[2]).value)
    else name
  }

  /** On a line not ending in `%`, the preview agrees with the parser: it shows
      a year exactly when the line would be accepted, with the same names
      (before lower-casing) and the accepted year printed without leading
      zeros. */
  lemma PreviewMatchesParse(buffer: string)
    requires IsAscii(buffer) && !EndsWith(buffer, '%')
    ensures Parse(buffer).Parsed? <==> ShowsYear(buffer)
    ensures Parse(buffer).Parsed? ==>
      var text := Tokens(buffer);
      var tag := Parse(buffer).tag;
      && tag.firstName == Lower(text[0]) && tag.lastName == Lower(text[1])
      && Greeting(buffer) == "Welcome " + text[0] + " " + text[1] + ", Graduation year: " + Decimal(tag.gradYear)
      && DigitsValue(Decimal(tag.gradYear)) == tag.gradYear
      && (Decimal(tag.gradYear)[0] == '0' <==> tag.gradYear == 0)
  {
    PlainLine(buffer);
    if Parse(buffer).Parsed? {
      DecimalValue(Parse(buffer).tag.gradYear);
      DecimalCanonical(Parse(buffer).tag.gradYear);
    }
  }

  /** A worked case: the year token "007" is shown as 7 and the names keep
      their case. The pieces of the line are parameters pinned to literals,
      for the same reason as the worked lines of the parser. */
  lemma GreetingNormalisesYear(first: string, last: string, year: string)
    requires first == "Ann" && last == "Lee" && year == "007"
    ensures Greeting(first + " " + last + " " + year) == "Welcome " + first + " " + last + ", Graduation year: 7"
  {
    assert ParseU16(year) == Some(7) by {
      var d2, d1 := year[..2], year[..1];
      assert AllDigits(year) && d2[..1] == d1 && d1[..0] == [];
      assert DigitsValue(d1) == 0;
      assert DigitsValue(d2) == 0;
    }
    assert IsToken(first) && IsToken(last) && IsToken(year);
    assert IsAscii(first + " " + last + " " + year);
    GreetingOfThree(first, last, year);
    assert Decimal(7) == "7";
  }

  lemma GreetingOfThree(first: string, last: string, year: string)
    requires IsAscii(first + " " + last + " " + year)
    requires IsToken(first) && IsToken(last) && IsToken(year) && ParseU16(year).Some?
    ensures Greeting(first + " " + last + " " + year)
      == "Welcome " + first + " " + last + ", Graduation year: " + Decimal(ParseU16(year).value)
  {
    ThreeWords([first, last, year]);
  }
}
