/**
 * ASCII text handling: lower-casing, splitting on a separator character and
 * splitting on runs of whitespace. Rust's `str::to_lowercase` and
 * `str::split_whitespace` are Unicode-aware; this module gives their
 * behaviour on ASCII text, which is all the kiosk model admits.
 */
module Ascii {

  predicate IsAscii(s: string)
  {
    forall i | 0 <= i < |s| :: s[i] as int < 128
  }

  /** The ASCII characters with the Unicode White_Space property: tab, line feed,
      vertical tab, form feed, carriage return and space. */
  predicate IsWhitespace(c: char)
  {
    c == ' ' || 9 <= c as int <= 13
  }

  predicate IsLetter(c: char)
  {
    'A' <= c <= 'Z' || 'a' <= c <= 'z'
  }

  function LowerChar(c: char): (d: char)
    ensures IsWhitespace(d) <==> IsWhitespace(c)
    ensures !('A' <= c <= 'Z') ==> d == c
    ensures IsLetter(d) <==> IsLetter(c)
  {
    if 'A' <= c <= 'Z' then (c as int + 32) as char else c
  }

  function Lower(s: string): (r: string)
  {
    seq(|s|, i requires 0 <= i < |s| => LowerChar(s[i]))
  }

  function LowerAll(ss: seq<string>): seq<string>
  {
    seq(|ss|, i requires 0 <= i < |ss| => Lower(ss[i]))
  }

  predicate EndsWith(s: string, c: char)
  {
    |s| > 0 && s[|s| - 1] == c
  }

  lemma LowerEndsWith(s: string, c: char)
    requires !IsLetter(c)
    ensures EndsWith(Lower(s), c) <==> EndsWith(s, c)
  {
  }

  lemma EndsWithAppend(x: string, y: string, c: char)
    requires y != []
    ensures EndsWith(x + y, c) <==> EndsWith(y, c)
  {
  }

  lemma LowerTail(s: string)
    requires s != []
    ensures Lower(s)[0] == LowerChar(s[0]) && Lower(s)[1..] == Lower(s[1..])
  {
  }

  // ---------------------------------------------------------------------
  // Splitting on one separator character (Rust's `str::split(char)`)
  // ---------------------------------------------------------------------

  /** The fields between occurrences of `sep`; there is always at least one. */
  function Split(s: string, sep: char): (fields: seq<string>)
    ensures |fields| >= 1
  {
    if s == [] then [[]]
    else
      var rest := Split(s[1..], sep);
      if s[0] == sep then [[]] + rest
      else [[s[0]] + rest[0]] + rest[1..]
  }

  function Join(fields: seq<string>, sep: char): string
  {
    if fields == [] then []
    else if |fields| == 1 then fields[0]
    else fields[0] + [sep] + Join(fields[1..], sep)
  }

  /** Joining the fields back with the separator restores the text. */
  lemma {:induction false} JoinSplit(s: string, sep: char)
    ensures Join(Split(s, sep), sep) == s
  {
    if s != [] {
      var rest := Split(s[1..], sep);
      JoinSplit(s[1..], sep);
      if s[0] == sep {
        assert Split(s, sep) == [[]] + rest;
        assert ([[]] + rest)[1..] == rest;
      } else {
        var fs := Split(s, sep);
        assert fs == [[s[0]] + rest[0]] + rest[1..];
        if |rest| == 1 {
          assert Join(fs, sep) == [s[0]] + rest[0];
        } else {
          assert fs[1..] == rest[1..];
          assert Join(rest, sep) == rest[0] + [sep] + Join(rest[1..], sep);
          assert Join(fs, sep) == [s[0]] + (rest[0] + [sep] + Join(rest[1..], sep));
        }
      }
    }
  }

  /** Splitting fields joined by a separator they do not contain gives them back. */
  lemma {:induction false} SplitJoin(fields: seq<string>, sep: char)
    requires |fields| >= 1
    requires forall i | 0 <= i < |fields| :: sep !in fields[i]
    ensures Split(Join(fields, sep), sep) == fields
  {
    if |fields| == 1 {
      SplitNoSep(fields[0], sep);
    } else {
      var tail := Join(fields[1..], sep);
      SplitJoin(fields[1..], sep);
      SplitPrefix(fields[0], sep, [sep] + tail);
      assert Split([sep] + tail, sep) == [[]] + fields[1..] by {
        assert ([sep] + tail)[1..] == tail;
      }
      var parts := Split([sep] + tail, sep);
      assert parts[0] == [] && parts[1..] == fields[1..];
      assert fields[0] + parts[0] == fields[0];
      assert fields == [fields[0]] + fields[1..];
      assert Join(fields, sep) == fields[0] + ([sep] + tail);
      assert Split(Join(fields, sep), sep) == [fields[0] + parts[0]] + parts[1..];
    }
  }

  lemma {:induction false} SplitNoSep(w: string, sep: char)
    requires sep !in w
    ensures Split(w, sep) == [w]
  {
    if w != [] {
      assert w[0] != sep && sep !in w[1..];
      SplitNoSep(w[1..], sep);
      assert [w[0]] + w[1..] == w;
    }
  }

  /** A separator-free prefix glues onto the first field of the rest. */
  lemma {:induction false} SplitPrefix(w: string, sep: char, rest: string)
    requires sep !in w
    ensures Split(w + rest, sep) == [w + Split(rest, sep)[0]] + Split(rest, sep)[1..]
  {
    if w != [] {
      assert (w + rest)[1..] == w[1..] + rest;
      SplitPrefix(w[1..], sep, rest);
      assert [w[0]] + (w[1..] + Split(rest, sep)[0]) == w + Split(rest, sep)[0];
    } else {
      var fs := Split(rest, sep);
      assert w + rest == rest;
      assert w + fs[0] == fs[0];
      assert [fs[0]] + fs[1..] == fs;
    }
  }

  /** There is one field more than there are separators. */
  lemma {:induction false} SplitCount(s: string, sep: char)
    ensures |Split(s, sep)| == multiset(s)[sep] + 1
  {
    if s != [] {
      SplitCount(s[1..], sep);
      assert s == [s[0]] + s[1..];
      assert multiset(s) == multiset([s[0]]) + multiset(s[1..]);
    }
  }

  /** Lower-casing commutes with splitting on a non-letter. */
  lemma {:induction false} SplitLower(s: string, sep: char)
    requires !IsLetter(sep)
    ensures Split(Lower(s), sep) == LowerAll(Split(s, sep))
  {
    if s != [] {
      SplitLower(s[1..], sep);
      SplitLowerStep(s, sep);
    }
  }

  lemma SplitLowerStep(s: string, sep: char)
    requires !IsLetter(sep) && s != []
    requires Split(Lower(s[1..]), sep) == LowerAll(Split(s[1..], sep))
    ensures Split(Lower(s), sep) == LowerAll(Split(s, sep))
  {
    LowerTail(s);
    var rest := Split(s[1..], sep);
    assert LowerChar(s[0]) == sep <==> s[0] == sep;
    if s[0] != sep {
      LowerAllJoinHead(s[0], rest);
    } else {
      LowerAllEmptyHead(rest);
    }
  }

  lemma LowerAllEmptyHead(rest: seq<string>)
    ensures LowerAll([[]] + rest) == [[]] + LowerAll(rest)
  {
    assert Lower([]) == [];
  }

  lemma LowerAllJoinHead(c: char, rest: seq<string>)
    requires rest != []
    ensures LowerAll([[c] + rest[0]] + rest[1..]) == [[LowerChar(c)] + LowerAll(rest)[0]] + LowerAll(rest)[1..]
  {
    assert Lower([c] + rest[0]) == [LowerChar(c)] + Lower(rest[0]);
    assert LowerAll(rest)[1..] == LowerAll(rest[1..]);
  }

  // ---------------------------------------------------------------------
  // Splitting on runs of whitespace (Rust's `str::split_whitespace`)
  // ---------------------------------------------------------------------

  predicate NoWhitespace(s: string)
  {
    forall i | 0 <= i < |s| :: !IsWhitespace(s[i])
  }

  predicate AllWhitespace(g: string)
  {
    forall i | 0 <= i < |g| :: IsWhitespace(g[i])
  }

  /** A token: a non-empty run of non-whitespace characters. */
  predicate IsToken(w: string)
  {
    w != [] && NoWhitespace(w)
  }

  /** The text after its leading whitespace. */
  function SkipSpace(s: string): (r: string)
    ensures |r| <= |s| && r == s[|s| - |r|..]
    ensures r == [] || !IsWhitespace(r[0])
    ensures AllWhitespace(s[..|s| - |r|])
  {
    if s != [] && IsWhitespace(s[0]) then SkipSpace(s[1..]) else s
  }

  /** The longest whitespace-free prefix. */
  function Word(s: string): (w: string)
    ensures |w| <= |s| && w == s[..|w|] && NoWhitespace(w)
    ensures |w| < |s| ==> IsWhitespace(s[|w|])
  {
    if s == [] || IsWhitespace(s[0]) then [] else [s[0]] + Word(s[1..])
  }

  /** The tokens of `s`, in order. */
  function Tokens(s: string): (ts: seq<string>)
    ensures forall i | 0 <= i < |ts| :: IsToken(ts[i])
    decreases |s|
  {
    var t := SkipSpace(s);
    if t == [] then []
    else
      var w := Word(t);
      [w] + Tokens(t[|w|..])
  }

  lemma {:induction false} SkipSpaceLower(s: string)
    ensures SkipSpace(Lower(s)) == Lower(SkipSpace(s))
  {
    if s != [] {
      LowerTail(s);
      SkipSpaceLower(s[1..]);
    }
  }

  lemma {:induction false} WordLower(s: string)
    ensures Word(Lower(s)) == Lower(Word(s))
  {
    if s != [] {
      LowerTail(s);
      WordLower(s[1..]);
    }
  }

  /** Lower-casing commutes with tokenising: the tokens of the lower-cased
      text are the lower-cased tokens. */
  lemma {:induction false} TokensLower(s: string)
    ensures Tokens(Lower(s)) == LowerAll(Tokens(s))
    decreases |s|
  {
    var t := SkipSpace(s);
    SkipSpaceLower(s);
    if t != [] {
      var w := Word(t);
      var rest := t[|w|..];
      TokensLowerStep(t, w, rest);
      TokensLower(rest);
      LowerAllCons(w, Tokens(rest));
    }
  }

  lemma TokensLowerStep(t: string, w: string, rest: string)
    requires t != [] && !IsWhitespace(t[0]) && w == Word(t) && rest == t[|w|..]
    ensures Word(Lower(t)) == Lower(w) && Lower(t)[|w|..] == Lower(rest)
  {
    WordLower(t);
  }

  lemma LowerAllCons(w: string, ws: seq<string>)
    ensures LowerAll([w] + ws) == [Lower(w)] + LowerAll(ws)
  {
  }

  function JoinWords(ts: seq<string>): string
  {
    Join(ts, ' ')
  }

  lemma {:induction false} WordOfToken(w: string, rest: string)
    requires NoWhitespace(w)
    requires rest == [] || IsWhitespace(rest[0])
    ensures Word(w + rest) == w
  {
    if w != [] {
      assert (w + rest)[1..] == w[1..] + rest;
      WordOfToken(w[1..], rest);
    } else {
      assert w + rest == rest;
    }
  }

  /** Tokenising tokens joined by single spaces gives them back. */
  lemma {:induction false} TokensJoinWords(ts: seq<string>)
    requires forall i | 0 <= i < |ts| :: IsToken(ts[i])
    ensures Tokens(JoinWords(ts)) == ts
  {
    if |ts| == 1 {
      TokensCons(ts[0], []);
      assert ts[0] + [] == ts[0];
      assert Tokens([]) == [];
    } else if |ts| > 1 {
      TokensJoinWords(ts[1..]);
      TokensJoinWordsStep(ts);
    }
  }

  lemma TokensJoinWordsStep(ts: seq<string>)
    requires |ts| > 1 && IsToken(ts[0])
    requires Tokens(JoinWords(ts[1..])) == ts[1..]
    ensures Tokens(JoinWords(ts)) == ts
  {
    var tail := JoinWords(ts[1..]);
    JoinWordsCons(ts);
    SpaceGap(tail);
    TokensCons(ts[0], [' '] + tail);
    HeadTail(ts);
  }

  lemma JoinWordsCons(ts: seq<string>)
    requires |ts| > 1
    ensures JoinWords(ts) == ts[0] + ([' '] + JoinWords(ts[1..]))
  {
    assert JoinWords(ts) == ts[0] + [' '] + JoinWords(ts[1..]);
    Assoc(ts[0], [' '], JoinWords(ts[1..]));
  }

  /** A single space in front changes nothing about the tokens. */
  lemma SpaceGap(tail: string)
    ensures ([' '] + tail)[0] == ' '
    ensures Tokens([' '] + tail) == Tokens(tail)
  {
    assert AllWhitespace([' ']);
    TokensGap([' '], tail);
  }

  /** When `s` ends in a non-whitespace character, its last token ends in that character. */
  lemma {:induction false} LastTokenEnd(s: string)
    requires s != [] && !IsWhitespace(s[|s| - 1])
    ensures Tokens(s) != []
    ensures var ts := Tokens(s); ts[|ts| - 1][|ts[|ts| - 1]| - 1] == s[|s| - 1]
    decreases |s|
  {
    LastTokenShrinks(s);
    TokensStep(s);
    var t := SkipSpace(s);
    var w := Word(t);
    var rest := t[|w|..];
    if rest == [] {
      LastTokenAlone(s);
      assert Tokens(rest) == [];
    } else {
      LastTokenRest(s);
      LastTokenEnd(rest);
    }
    LastWordOf(Tokens(s), w, Tokens(rest), s[|s| - 1]);
  }

  /** The last word of `[w] + tail` is `w` when `tail` is empty, and the last of `tail` otherwise. */
  lemma LastWordOf(ts: seq<string>, w: string, tail: seq<string>, c: char)
    requires ts == [w] + tail
    requires tail == [] ==> w != [] && w[|w| - 1] == c
    requires tail != [] ==> tail[|tail| - 1] != [] && tail[|tail| - 1][|tail[|tail| - 1]| - 1] == c
    ensures ts != [] && ts[|ts| - 1] != [] && ts[|ts| - 1][|ts[|ts| - 1]| - 1] == c
  {
    assert ts[|ts| - 1] == if tail == [] then w else tail[|tail| - 1];
  }

  // One step of `LastTokenEnd`, split into its three facts: the first token,
  // and what is left after it.

  lemma LastTokenShrinks(s: string)
    requires s != [] && !IsWhitespace(s[|s| - 1])
    ensures var t := SkipSpace(s); t != [] && |t[|Word(t)|..]| < |s|
  {
    SkipSpaceKeepsLast(s);
    WordKeepsLast(SkipSpace(s));
  }

  lemma LastTokenAlone(s: string)
    requires s != [] && !IsWhitespace(s[|s| - 1])
    ensures var t := SkipSpace(s); var w := Word(t); var rest := t[|w|..];
      rest == [] ==> w != [] && w[|w| - 1] == s[|s| - 1]
  {
    SkipSpaceKeepsLast(s);
    var t := SkipSpace(s);
    var w := Word(t);
    if |w| == |t| {
      assert w == t;
    }
  }

  lemma LastTokenRest(s: string)
    requires s != [] && !IsWhitespace(s[|s| - 1])
    ensures var t := SkipSpace(s); var rest := t[|Word(t)|..];
      rest != [] ==> rest[|rest| - 1] == s[|s| - 1]
  {
    SkipSpaceKeepsLast(s);
    var t := SkipSpace(s);
    var k := |Word(t)|;
    if k < |t| {
      LastOfDrop(t, k);
    }
  }

  lemma LastOfDrop<T>(s: seq<T>, k: nat)
    requires k < |s|
    ensures s[k..][|s[k..]| - 1] == s[|s| - 1]
  {
  }

  /** Without its leading whitespace, the text still ends in the same character. */
  lemma {:induction false} SkipSpaceKeepsLast(s: string)
    requires s != [] && !IsWhitespace(s[|s| - 1])
    ensures var t := SkipSpace(s); t != [] && t[|t| - 1] == s[|s| - 1]
    decreases |s|
  {
    if IsWhitespace(s[0]) {
      assert |s| > 1;
      LastOfDrop(s, 1);
      SkipSpaceKeepsLast(s[1..]);
    }
  }

  /** A text that starts with a token: that token, or what follows it, ends the text. */
  lemma WordKeepsLast(t: string)
    requires t != [] && !IsWhitespace(t[0])
    ensures |t[|Word(t)|..]| < |t|
    ensures var w := Word(t); var rest := t[|w|..];
      rest == [] ==> w != [] && w[|w| - 1] == t[|t| - 1]
    ensures var rest := t[|Word(t)|..];
      rest != [] ==> rest[|rest| - 1] == t[|t| - 1]
  {
    var w := Word(t);
    assert w != [];
    SplitAt(t, |w|);
    if t[|w|..] != [] {
      LastOfAppend(w, t[|w|..]);
    }
  }

  // ---------------------------------------------------------------------
  // What the tokens are: the text is whitespace gaps woven with tokens
  // ---------------------------------------------------------------------

  /** `gs` and `ts` describe a text as gap, token, gap, ..., token, gap: every
      gap is whitespace only, the gaps between two tokens are non-empty (the
      first and last may be empty), and every token is a token. */
  predicate Separates(gs: seq<string>, ts: seq<string>)
  {
    && |gs| == |ts| + 1
    && (forall i | 0 <= i < |gs| :: AllWhitespace(gs[i]))
    && (forall i | 0 < i < |ts| :: gs[i] != [])
    && (forall i | 0 <= i < |ts| :: IsToken(ts[i]))
  }

  /** The text `gs[0] + ts[0] + gs[1] + ... + ts[n-1] + gs[n]`. */
  function Weave(gs: seq<string>, ts: seq<string>): string
    requires |gs| == |ts| + 1
    decreases |ts|
  {
    if ts == [] then gs[0] else gs[0] + (ts[0] + Weave(gs[1..], ts[1..]))
  }

  /** The whitespace gaps around and between the tokens of `s`. */
  function Gaps(s: string): seq<string>
    decreases |s|
  {
    var t := SkipSpace(s);
    var lead := s[..|s| - |t|];
    if t == [] then [lead] else [lead] + Gaps(t[|Word(t)|..])
  }

  lemma {:induction false} SkipSpaceGap(g: string, r: string)
    requires AllWhitespace(g)
    ensures SkipSpace(g + r) == SkipSpace(r)
  {
    if g != [] {
      assert (g + r)[1..] == g[1..] + r;
      SkipSpaceGap(g[1..], r);
    } else {
      assert g + r == r;
    }
  }

  /** Leading whitespace does not change the tokens. */
  lemma TokensGap(g: string, r: string)
    requires AllWhitespace(g)
    ensures Tokens(g + r) == Tokens(r)
  {
    SkipSpaceGap(g, r);
  }

  /** A token followed by whitespace or the end is the first token. */
  lemma TokensCons(w: string, rest: string)
    requires IsToken(w) && (rest == [] || IsWhitespace(rest[0]))
    ensures Tokens(w + rest) == [w] + Tokens(rest)
  {
    var t := w + rest;
    assert t[0] == w[0];
    WordOfToken(w, rest);
    assert t[|w|..] == rest;
  }

  lemma WeaveTail(gs: seq<string>, ts: seq<string>)
    requires Separates(gs, ts) && ts != []
    ensures Weave(gs, ts) == gs[0] + (ts[0] + Weave(gs[1..], ts[1..]))
    ensures var rest := Weave(gs[1..], ts[1..]); rest == [] || IsWhitespace(rest[0])
    ensures Separates(gs[1..], ts[1..])
  {
    var rest := Weave(gs[1..], ts[1..]);
    assert gs[1..][0] == gs[1];
    if |ts| > 1 {
      assert rest == gs[1] + (ts[1..][0] + Weave(gs[1..][1..], ts[1..][1..]));
      assert rest[0] == gs[1][0];
    }
    forall i | 0 < i < |ts[1..]|
      ensures gs[1..][i] != []
    {
      assert gs[1..][i] == gs[i + 1];
    }
  }

  lemma AppendNil<T>(s: seq<T>)
    ensures s + [] == s
  {
  }

  lemma ConsTwo<T>(a: T, b: T)
    ensures [a] + [b] == [a, b]
  {
  }

  lemma ConsThree<T>(a: T, b: T, c: T)
    ensures [a] + [b, c] == [a, b, c]
  {
  }

  lemma Assoc<T>(a: seq<T>, b: seq<T>, c: seq<T>)
    ensures a + b + c == a + (b + c)
  {
  }

  lemma LastOfAppend<T>(x: seq<T>, y: seq<T>)
    requires y != []
    ensures (x + y)[|x + y| - 1] == y[|y| - 1]
  {
  }

  lemma SplitAt<T>(s: seq<T>, k: nat)
    requires k <= |s|
    ensures s == s[..k] + s[k..]
  {
  }

  lemma HeadTail<T>(s: seq<T>)
    requires s != []
    ensures [s[0]] + s[1..] == s
  {
  }

  /** A gap, then a token, then the rest: the token comes first. */
  lemma TokensWeaveStep(g: string, w: string, rest: string, tail: seq<string>)
    requires AllWhitespace(g) && IsToken(w) && (rest == [] || IsWhitespace(rest[0]))
    requires Tokens(rest) == tail
    ensures Tokens(g + (w + rest)) == [w] + tail
  {
    TokensGap(g, w + rest);
    TokensCons(w, rest);
  }

  /** Whatever whitespace separates the tokens (runs of spaces, tabs, line
      breaks, leading or trailing whitespace), tokenising gives exactly the
      tokens, in order. */
  lemma {:induction false} TokensOfWeave(gs: seq<string>, ts: seq<string>)
    requires Separates(gs, ts)
    ensures Tokens(Weave(gs, ts)) == ts
    decreases |ts|
  {
    if ts == [] {
      TokensGap(gs[0], []);
      assert gs[0] + [] == gs[0];
    } else {
      var rest := Weave(gs[1..], ts[1..]);
      WeaveTail(gs, ts);
      TokensOfWeave(gs[1..], ts[1..]);
      TokensWeaveStep(gs[0], ts[0], rest, ts[1..]);
      HeadTail(ts);
    }
  }

  // The facts about one step of the tokeniser are stated one per lemma: the
  // solver handles each alone cheaply, but not several together.

  /** Before the first token there is only whitespace. */
  lemma LeadingGap(s: string)
    requires SkipSpace(s) != []
    ensures var t := SkipSpace(s); AllWhitespace(s[..|s| - |t|])
  {
  }

  /** The first token is followed by whitespace or the end. */
  lemma FirstToken(s: string)
    requires SkipSpace(s) != []
    ensures var t := SkipSpace(s); var w := Word(t); IsToken(w) && (t[|w|..] == [] || IsWhitespace(t[|w|..][0]))
  {
  }

  /** The text is its leading whitespace, its first token and the rest. */
  lemma FirstTokenSplit(s: string)
    requires SkipSpace(s) != []
    ensures var t := SkipSpace(s); var w := Word(t); s == s[..|s| - |t|] + (w + t[|w|..])
  {
    var t := SkipSpace(s);
    SplitAt(s, |s| - |t|);
    SplitAt(t, |Word(t)|);
  }

  lemma TokensStep(s: string)
    requires SkipSpace(s) != []
    ensures var t := SkipSpace(s); Tokens(s) == [Word(t)] + Tokens(t[|Word(t)|..])
  {
  }

  lemma GapsStep(s: string)
    requires SkipSpace(s) != []
    ensures var t := SkipSpace(s); Gaps(s) == [s[..|s| - |t|]] + Gaps(t[|Word(t)|..])
  {
    var t := SkipSpace(s);
    var rest := t[|Word(t)|..];
    assert Gaps(s) == [s[..|s| - |t|]] + Gaps(rest);
  }

  /** Text that starts with whitespace has a non-empty leading gap. */
  lemma GapHead(s: string)
    requires s != [] && IsWhitespace(s[0])
    ensures Gaps(s)[0] != []
  {
    var r := SkipSpace(s);
    assert |r| < |s|;
  }

  lemma SeparatesCons(lead: string, w: string, gs: seq<string>, ts: seq<string>)
    requires AllWhitespace(lead) && IsToken(w) && Separates(gs, ts)
    requires ts != [] ==> gs[0] != []
    ensures Separates([lead] + gs, [w] + ts)
  {
    forall i | 0 <= i < |[lead] + gs|
      ensures AllWhitespace(([lead] + gs)[i])
    {
      if i > 0 { assert ([lead] + gs)[i] == gs[i - 1]; }
    }
    forall i | 0 < i < |[w] + ts|
      ensures ([lead] + gs)[i] != []
    {
      assert ([lead] + gs)[i] == gs[i - 1];
    }
  }

  lemma WeaveCons(lead: string, w: string, gs: seq<string>, ts: seq<string>)
    requires |gs| == |ts| + 1
    ensures Weave([lead] + gs, [w] + ts) == lead + (w + Weave(gs, ts))
  {
    assert ([lead] + gs)[1..] == gs && ([w] + ts)[1..] == ts;
  }

  /** The gaps of a text and its tokens fit together: whitespace only, and
      non-empty between two tokens. */
  lemma {:induction false} GapsSeparate(s: string)
    ensures Separates(Gaps(s), Tokens(s))
    decreases |s|
  {
    var t := SkipSpace(s);
    if t != [] {
      LeadingGap(s);
      FirstToken(s);
      TokensStep(s);
      GapsStep(s);
      var rest := t[|Word(t)|..];
      GapsSeparate(rest);
      if Tokens(rest) != [] {
        GapHead(rest);
      }
      SeparatesCons(s[..|s| - |t|], Word(t), Gaps(rest), Tokens(rest));
    }
  }

  /** Every text is its gaps woven with its tokens, so together with
      `TokensOfWeave` the tokens are exactly the maximal whitespace-free runs. */
  lemma {:induction false} WeaveTokens(s: string)
    ensures Separates(Gaps(s), Tokens(s))
    ensures Weave(Gaps(s), Tokens(s)) == s
    decreases |s|
  {
    GapsSeparate(s);
    var t := SkipSpace(s);
    var lead := s[..|s| - |t|];
    if t == [] {
      assert s == lead + [];
    } else {
      FirstTokenSplit(s);
      TokensStep(s);
      GapsStep(s);
      var w := Word(t);
      var rest := t[|w|..];
      WeaveTokens(rest);
      WeaveCons(lead, w, Gaps(rest), Tokens(rest));
    }
  }

  /** Three tokens separated by single spaces tokenise back to themselves. */
  lemma ThreeWords(ts: seq<string>)
    requires |ts| == 3 && IsToken(ts[0]) && IsToken(ts[1]) && IsToken(ts[2])
    ensures Tokens(ts[0] + " " + ts[1] + " " + ts[2]) == ts
  {
    assert ts[1..] == [ts[1], ts[2]] && ts[1..][1..] == [ts[2]];
    assert Join(ts[1..][1..], ' ') == ts[2];
    assert Join(ts[1..], ' ') == ts[1] + " " + ts[2];
    assert JoinWords(ts) == ts[0] + " " + ts[1] + " " + ts[2];
    TokensJoinWords(ts);
  }

  /** Three tokens with any whitespace around and between them (non-empty
      between) tokenise to those three. */
  lemma ThreeWordsSpaced(g0: string, a: string, g1: string, b: string, g2: string, c: string, g3: string)
    requires AllWhitespace(g0) && AllWhitespace(g1) && AllWhitespace(g2) && AllWhitespace(g3)
    requires g1 != [] && g2 != []
    requires IsToken(a) && IsToken(b) && IsToken(c)
    ensures Tokens(g0 + (a + (g1 + (b + (g2 + (c + g3)))))) == [a, b, c]
  {
    var x2 := g2 + (c + g3);
    var x1 := g1 + (b + x2);
    TokensGap(g3, []);
    AppendNil(g3);
    TokensWeaveStep(g2, c, g3, []);
    AppendNil([c]);
    assert x2[0] == g2[0];
    TokensWeaveStep(g1, b, x2, [c]);
    ConsTwo(b, c);
    assert x1[0] == g1[0];
    TokensWeaveStep(g0, a, x1, [b, c]);
    ConsThree(a, b, c);
  }

  lemma TwoWords(a: string, b: string)
    requires IsToken(a) && IsToken(b)
    ensures Tokens(a + " " + b) == [a, b]
  {
    var ts := [a, b];
    assert ts[1..] == [b] && Join(ts[1..], ' ') == b;
    assert JoinWords(ts) == a + " " + b;
    TokensJoinWords(ts);
  }
}
