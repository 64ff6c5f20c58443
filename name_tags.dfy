/**
 * The sign-in line parser, `NameTag::from_str` (src/main.rs:184-216).
 *
 * The line is lower-cased. If it ends in `%` it is first tried as a badge
 * line `first$last$year%`; the year probe takes the first `fields - 1`
 * characters of the third `$`-field, so for a three-field line it reads the
 * first two characters. Indexing the third field panics when the line has
 * fewer than two `$`, or when that field is too short for the probe.
 * Otherwise, or when the badge probe fails, the line must be exactly three
 * whitespace-separated tokens whose last parses as a `u16`.
 */
module NameTags {
  import opened Wrappers
  import opened Ascii
  import opened Numbers

  datatype NameTag = NameTag(firstName: string, lastName: string, gradYear: U16, badge: bool)

  /** The one error the parser reports (the other variants of the source's
      error enum are never produced). */
  datatype NameTagErr = DeserializeError

  /** What a call to the parser does: return a tag, return an error, or panic. */
  datatype ParseResult = Parsed(tag: NameTag) | Rejected(error: NameTagErr) | Panicked

  /** The whitespace format: exactly three tokens, the third a `u16`. */
  function ParseWords(s: string): ParseResult
  {
    var tag := Tokens(s);
    if |tag| != 3 then Rejected(DeserializeError)
    else
      match ParseU16(tag[2])
      case Some(v) => Parsed(NameTag(tag[0], tag[1], v, false))
      case None => Rejected(DeserializeError)
  }

  /** Whether indexing the badge fields would panic: the third field is missing,
      or is shorter than the slice `[..fields - 1]`. */
  predicate BadgeIndexPanics(tag: seq<string>)
  {
    |tag| < 3 || |tag[2]| < |tag| - 1
  }

  /** The badge year probe, `tag[2][..tag.len() - 1].parse::<u16>().unwrap_or(0)`. */
  function BadgeYear(tag: seq<string>): U16
    requires !BadgeIndexPanics(tag)
  {
    ParseU16(tag[2][..|tag| - 1]).GetOr(0)
  }

  function Parse(line: string): ParseResult
    requires IsAscii(line)
  {
    var s := Lower(line);
    if EndsWith(s, '%') then
      var tag := Split(s, '$');
      if BadgeIndexPanics(tag) then Panicked
      else if |tag| == 3 && BadgeYear(tag) > 0 then
        Parsed(NameTag(tag[0], tag[1], BadgeYear(tag), true))
      else ParseWords(s)
    else ParseWords(s)
  }

  /** The whitespace format on a lower-cased line, stated in terms of the
      tokens of the original line. */
  lemma ParseWordsLower(line: string)
    ensures ParseWords(Lower(line)) ==
      var ts := Tokens(line);
      if |ts| == 3 && ParseU16(ts[2]).Some? then
        Parsed(NameTag(Lower(ts[0]), Lower(ts[1]), ParseU16(ts[2]).value, false))
      else Rejected(DeserializeError)
  {
    TokensLower(line);
    var ts := Tokens(line);
    if |ts| == 3 {
      ParseU16Lower(ts[2]);
    }
  }

  /** A line not ending in `%` is accepted exactly when it has three tokens and
      the third is a `u16`; the names are the lower-cased tokens, the year is
      that value (0 included) and the entry is not a badge entry. Otherwise it
      is rejected; it never panics. */
  lemma PlainLine(line: string)
    requires IsAscii(line) && !EndsWith(line, '%')
    ensures var ts := Tokens(line);
      Parse(line) ==
        if |ts| == 3 && ParseU16(ts[2]).Some? then
          Parsed(NameTag(Lower(ts[0]), Lower(ts[1]), ParseU16(ts[2]).value, false))
        else Rejected(DeserializeError)
  {
    LowerEndsWith(line, '%');
    ParseWordsLower(line);
  }

  /** When the line ends in `%`, its last token ends in `%`, so the whitespace
      format always rejects it. */
  lemma PercentLineNotWords(line: string)
    requires EndsWith(line, '%')
    ensures ParseWords(line) == Rejected(DeserializeError)
  {
    LastTokenEnd(line);
    var ts := Tokens(line);
    if |ts| == 3 {
      ParseU16NonDigitEnd(ts[2]);
    }
  }

  /** A line ending in `%` never yields a non-badge entry: it panics, is
      rejected, or is accepted as a badge with a year in 1..99 read from
      the first two characters of the third `$`-field. */
  lemma PercentLine(line: string)
    requires IsAscii(line) && EndsWith(line, '%')
    ensures var fields := LowerAll(Split(line, '$'));
      Parse(line) ==
        if BadgeIndexPanics(fields) then Panicked
        else if |fields| == 3 && BadgeYear(fields) > 0 then
          Parsed(NameTag(fields[0], fields[1], BadgeYear(fields), true))
        else Rejected(DeserializeError)
    ensures Parse(line).Parsed? ==> Parse(line).tag.badge && 1 <= Parse(line).tag.gradYear <= 99
  {
    PercentLineCases(line);
    var fields := LowerAll(Split(line, '$'));
    if !BadgeIndexPanics(fields) && |fields| == 3 {
      BadgeYearBound(fields);
    }
  }

  lemma PercentLineCases(line: string)
    requires IsAscii(line) && EndsWith(line, '%')
    ensures var fields := LowerAll(Split(line, '$'));
      Parse(line) ==
        if BadgeIndexPanics(fields) then Panicked
        else if |fields| == 3 && BadgeYear(fields) > 0 then
          Parsed(NameTag(fields[0], fields[1], BadgeYear(fields), true))
        else Rejected(DeserializeError)
  {
    LowerEndsWith(line, '%');
    SplitLower(line, '$');
    PercentLineNotWords(Lower(line));
  }

  /** With three fields the probe is two characters long, so it reads at most 99. */
  lemma BadgeYearBound(fields: seq<string>)
    requires !BadgeIndexPanics(fields) && |fields| == 3
    ensures BadgeYear(fields) <= 99
  {
    var probe := fields[2][..2];
    if ParseU16(probe).Some? {
      ParseU16Bound(probe);
      assert Pow10(2) == 100;
    }
  }

  /** A `%` line with fewer than two `$` always panics. */
  lemma PercentLineFewSeparators(line: string)
    requires IsAscii(line) && EndsWith(line, '%') && multiset(line)['$'] < 2
    ensures Parse(line) == Panicked
  {
    PercentLine(line);
    SplitCount(line, '$');
  }

  /** A well-formed badge line `first$last$YYrest%` (the first two characters of
      the year field a number in 1..99) is accepted with the lower-cased names
      and that two-digit year. */
  lemma BadgeLine(first: string, last: string, yearField: string)
    requires IsAscii(first + "$" + last + "$" + yearField)
    requires '$' !in first && '$' !in last && '$' !in yearField
    requires EndsWith(yearField, '%') && |yearField| >= 2
    requires ParseU16(yearField[..2]).Some? && ParseU16(yearField[..2]).value > 0
    ensures Parse(first + "$" + last + "$" + yearField) ==
      Parsed(NameTag(Lower(first), Lower(last), ParseU16(yearField[..2]).value, true))
  {
    var line := first + "$" + last + "$" + yearField;
    var fields := [first, last, yearField];
    assert fields[1..] == [last, yearField] && fields[1..][1..] == [yearField];
    assert Join(fields[1..], '$') == last + "$" + yearField;
    assert line == Join(fields, '$');
    SplitJoin([first, last, yearField], '$');
    assert EndsWith(line, '%');
    PercentLine(line);
    ParseU16Unaffected(yearField[..2]);
    assert Lower(yearField)[..2] == Lower(yearField[..2]);
  }

  // ---------------------------------------------------------------------
  // Worked lines
  //
  // Each example takes the pieces of its line as parameters pinned to
  // literals by its `requires`. Stating the parser on a literal string
  // directly makes the solver unfold the recursive tokeniser over every
  // character, which runs past the resource limit; with parameters, the
  // generic lemmas above carry the proof.
  // ---------------------------------------------------------------------

  /** A line of three tokens is parsed by its third token alone. */
  lemma ThreeTokenLine(first: string, last: string, year: string)
    requires IsAscii(first + " " + last + " " + year)
    requires IsToken(first) && IsToken(last) && IsToken(year) && !EndsWith(year, '%')
    ensures Parse(first + " " + last + " " + year) ==
      if ParseU16(year).Some? then Parsed(NameTag(Lower(first), Lower(last), ParseU16(year).value, false))
      else Rejected(DeserializeError)
  {
    var line := first + " " + last + " " + year;
    ThreeWords([first, last, year]);
    assert line[|line| - 1] == year[|year| - 1];
    PlainLine(line);
  }

  /** "John Doe 2025" is stored as john, doe, 2025, not a badge. */
  lemma TypedLineExample(first: string, last: string, year: string)
    requires first == "John" && last == "Doe" && year == "2025"
    ensures Parse(first + " " + last + " " + year) == Parsed(NameTag("john", "doe", 2025, false))
  {
    JohnDoe(first, last);
    Year2025(year);
    assert IsAscii(first + " " + last + " " + year);
    ThreeTokenLine(first, last, year);
  }

  /** The name tokens of the worked lines. */
  lemma JohnDoe(first: string, last: string)
    requires first == "John" && last == "Doe"
    ensures IsToken(first) && IsToken(last) && IsAscii(first) && IsAscii(last)
    ensures Lower(first) == "john" && Lower(last) == "doe"
  {
  }

  /** The year token of the worked lines. */
  lemma Year2025(year: string)
    requires year == "2025"
    ensures IsToken(year) && IsAscii(year) && !EndsWith(year, '%') && ParseU16(year) == Some(2025)
  {
    ParseU16Decimal(2025);
    assert Decimal(2025) == year;
  }

  /** A line of three tokens with any whitespace around and between them is
      parsed by its third token alone, as if single spaces separated them. */
  lemma SpacedThreeTokenLine(g0: string, first: string, g1: string, last: string, g2: string, year: string, g3: string)
    requires AllWhitespace(g0) && AllWhitespace(g1) && AllWhitespace(g2) && AllWhitespace(g3)
    requires g1 != [] && g2 != []
    requires IsToken(first) && IsToken(last) && IsToken(year) && !EndsWith(year, '%')
    requires IsAscii(g0 + (first + (g1 + (last + (g2 + (year + g3))))))
    ensures Parse(g0 + (first + (g1 + (last + (g2 + (year + g3)))))) ==
      if ParseU16(year).Some? then Parsed(NameTag(Lower(first), Lower(last), ParseU16(year).value, false))
      else Rejected(DeserializeError)
  {
    var line := g0 + (first + (g1 + (last + (g2 + (year + g3)))));
    ThreeWordsSpaced(g0, first, g1, last, g2, year, g3);
    SpacedLineEnd(g0, first, g1, last, g2, year, g3);
    PlainLine(line);
  }

  /** Such a line ends in `%` only if its year token does. */
  lemma SpacedLineEnd(g0: string, first: string, g1: string, last: string, g2: string, year: string, g3: string)
    requires AllWhitespace(g3) && year != [] && !EndsWith(year, '%')
    ensures !EndsWith(g0 + (first + (g1 + (last + (g2 + (year + g3))))), '%')
  {
    var y := year + g3;
    assert !EndsWith(y, '%') by {
      if g3 == [] {
        assert y == year;
      } else {
        EndsWithAppend(year, g3, '%');
      }
    }
    EndsWithAppend(g2, y, '%');
    EndsWithAppend(last, g2 + y, '%');
    EndsWithAppend(g1, last + (g2 + y), '%');
    EndsWithAppend(first, g1 + (last + (g2 + y)), '%');
    EndsWithAppend(g0, first + (g1 + (last + (g2 + y))), '%');
  }

  /** "  John<tab>Doe  2025 ": runs of spaces, a tab, and leading and trailing
      whitespace separate tokens as a single space does. */
  lemma SpacedLineExample(g0: string, first: string, g1: string, last: string, g2: string, year: string, g3: string)
    requires g0 == "  " && first == "John" && g1 == "\t" && last == "Doe" && g2 == "  " && year == "2025" && g3 == " "
    ensures Parse(g0 + (first + (g1 + (last + (g2 + (year + g3)))))) == Parsed(NameTag("john", "doe", 2025, false))
  {
    JohnDoe(first, last);
    Year2025(year);
    assert IsAscii(g0 + (first + (g1 + (last + (g2 + (year + g3))))));
    SpacedThreeTokenLine(g0, first, g1, last, g2, year, g3);
  }

  /** "john$doe$2025%" is a badge line, but the year probe reads only the first
      two characters of "2025%", so the stored year is 20. */
  lemma BadgeLineExample(first: string, last: string, yearField: string)
    requires first == "john" && last == "doe" && yearField == "2025%"
    ensures Parse(first + "$" + last + "$" + yearField) == Parsed(NameTag("john", "doe", 20, true))
  {
    assert ParseU16(yearField[..2]) == Some(20) by {
      var d2 := yearField[..2];
      assert AllDigits(d2) && d2[..1][..0] == [];
      assert DigitsValue(d2[..1]) == 2;
    }
    assert IsAscii(first + "$" + last + "$" + yearField);
    assert Lower(first) == first && Lower(last) == last;
    BadgeLine(first, last, yearField);
  }

  /** "John Doe" has two tokens and is rejected. */
  lemma TwoTokenExample(first: string, last: string)
    requires first == "John" && last == "Doe"
    ensures Parse(first + " " + last) == Rejected(DeserializeError)
  {
    assert IsToken(first) && IsToken(last) && IsAscii(first + " " + last);
    TwoTokenLine(first, last);
  }

  /** A line of two tokens has the wrong token count and is rejected. */
  lemma TwoTokenLine(first: string, last: string)
    requires IsAscii(first + " " + last) && IsToken(first) && IsToken(last) && !EndsWith(last, '%')
    ensures Parse(first + " " + last) == Rejected(DeserializeError)
  {
    var line := first + " " + last;
    TwoWords(first, last);
    assert line[|line| - 1] == last[|last| - 1];
    PlainLine(line);
  }

  /** "John Doe abc" has no numeric year and is rejected. */
  lemma NonNumericYearExample(first: string, last: string, year: string)
    requires first == "John" && last == "Doe" && year == "abc"
    ensures Parse(first + " " + last + " " + year) == Rejected(DeserializeError)
  {
    assert IsToken(first) && IsToken(last) && IsToken(year);
    assert IsAscii(first + " " + last + " " + year);
    ParseU16NonDigitEnd(year);
    ThreeTokenLine(first, last, year);
  }

  /** A lone "%" reaches the badge branch with a single field and panics. */
  lemma LonePercentExample(line: string)
    requires line == "%"
    ensures Parse(line) == Panicked
  {
    assert multiset(line)['$'] == 0;
    PercentLineFewSeparators(line);
  }
}
