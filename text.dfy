/**
 * Text as the .NET APIs used by the dataset codec see it: `String.Split()` with no
 * separator (split on every `char.IsWhiteSpace` character), `StringBuilder.AppendLine`
 * and `TextReader.ReadLine`.
 */
module Text {

  /**
   * The characters `char.IsWhiteSpace` accepts: U+0009 to U+000D, U+0020, U+0085, U+00A0,
   * U+1680, U+2000 to U+200A, U+2028, U+2029, U+202F, U+205F and U+3000.
   */
  const WhiteSpaceChars: set<char> := {
    '\U{9}', '\U{A}', '\U{B}', '\U{C}', '\U{D}', '\U{20}', '\U{85}', '\U{A0}', '\U{1680}',
    '\U{2000}', '\U{2001}', '\U{2002}', '\U{2003}', '\U{2004}', '\U{2005}', '\U{2006}',
    '\U{2007}', '\U{2008}', '\U{2009}', '\U{200A}', '\U{2028}', '\U{2029}', '\U{202F}',
    '\U{205F}', '\U{3000}'
  }

  /** `char.IsWhiteSpace`: the characters `String.Split()` splits on when given no separator. */
  predicate IsWhiteSpace(c: char) {
    c in WhiteSpaceChars
  }

  /** The characters that end a line for `TextReader.ReadLine`. */
  predicate IsLineBreak(c: char) {
    c == '\n' || c == '\r'
  }

  /** A non-empty token with no whitespace in it. */
  predicate IsWord(w: string) {
    |w| > 0 && forall i :: 0 <= i < |w| ==> !IsWhiteSpace(w[i])
  }

  /** A string that `ReadLine` returns whole: it holds no line break. */
  predicate IsLine(s: string) {
    forall i :: 0 <= i < |s| ==> !IsLineBreak(s[i])
  }

  predicate NoWhiteSpace(s: string) {
    forall i :: 0 <= i < |s| ==> !IsWhiteSpace(s[i])
  }

  // ---------------------------------------------------------------------------
  // Tokenising: `line.Split().Where(str => !string.IsNullOrEmpty(str))`
  // ---------------------------------------------------------------------------

  /** `String.Split()`: the fields between whitespace characters, empty fields included. */
  function Split(s: string): (fields: seq<string>)
    ensures |fields| > 0
    decreases |s|
  {
    if s == [] then [""]
    else
      var rest := Split(s[1..]);
      if IsWhiteSpace(s[0]) then [""] + rest
      else [[s[0]] + rest[0]] + rest[1..]
  }

  /** `Where(str => !string.IsNullOrEmpty(str))`: drops the empty fields, keeping the order. */
  function NonEmpty(fields: seq<string>): seq<string>
    decreases |fields|
  {
    if fields == [] then []
    else (if fields[0] == "" then [] else [fields[0]]) + NonEmpty(fields[1..])
  }

  /** The tokens the reader parses out of one line. */
  function Tokens(line: string): (ts: seq<string>)
    ensures forall i :: 0 <= i < |ts| ==> IsWord(ts[i])
  {
    SplitFieldsHaveNoWhiteSpace(line);
    NonEmptyKeepsWords(Split(line));
    NonEmpty(Split(line))
  }

  lemma {:induction false} SplitFieldsHaveNoWhiteSpace(s: string)
    ensures forall i :: 0 <= i < |Split(s)| ==> NoWhiteSpace(Split(s)[i])
    decreases |s|
  {
    if s != [] {
      SplitFieldsHaveNoWhiteSpace(s[1..]);
    }
  }

  lemma {:induction false} NonEmptyKeepsWords(fields: seq<string>)
    requires forall i :: 0 <= i < |fields| ==> NoWhiteSpace(fields[i])
    ensures forall i :: 0 <= i < |NonEmpty(fields)| ==> IsWord(NonEmpty(fields)[i])
    decreases |fields|
  {
    if fields != [] {
      NonEmptyKeepsWords(fields[1..]);
    }
  }

  lemma {:induction false} NonEmptyAppend(a: seq<string>, b: seq<string>)
    ensures NonEmpty(a + b) == NonEmpty(a) + NonEmpty(b)
    decreases |a|
  {
    if a == [] {
      assert a + b == b;
    } else {
      assert (a + b)[0] == a[0];
      assert (a + b)[1..] == a[1..] + b;
      NonEmptyAppend(a[1..], b);
    }
  }

  /** A whitespace character cuts the fields in two: the fields of each side, side by side. */
  lemma {:induction false} SplitAround(a: string, w: char, b: string)
    requires IsWhiteSpace(w)
    ensures Split(a + [w] + b) == Split(a) + Split(b)
    decreases |a|
  {
    if a == [] {
      assert a + [w] + b == [w] + b;
      SplitAfterWhiteSpace(w, b);
    } else {
      var c, rest := a[0], a[1..];
      assert a == [c] + rest;
      assert a + [w] + b == [c] + (rest + [w] + b);
      SplitAround(rest, w, b);
      if IsWhiteSpace(c) {
        SplitAroundAfterWhiteSpace(c, rest, rest + [w] + b, Split(b));
      } else {
        SplitAroundAfterChar(c, rest, rest + [w] + b, Split(b));
      }
    }
  }

  /** The induction step of `SplitAround` for a leading whitespace character. */
  lemma SplitAroundAfterWhiteSpace(c: char, rest: string, t: string, back: seq<string>)
    requires IsWhiteSpace(c) && Split(t) == Split(rest) + back
    ensures Split([c] + t) == Split([c] + rest) + back
  {
    SplitAfterWhiteSpace(c, t);
    SplitAfterWhiteSpace(c, rest);
    assert ([""] + Split(rest)) + back == [""] + (Split(rest) + back);
  }

  /** The induction step of `SplitAround` for a leading non-whitespace character. */
  lemma SplitAroundAfterChar(c: char, rest: string, t: string, back: seq<string>)
    requires !IsWhiteSpace(c) && Split(t) == Split(rest) + back
    ensures Split([c] + t) == Split([c] + rest) + back
  {
    SplitAfterChar(c, t);
    SplitAfterChar(c, rest);
    var front := Split(rest);
    var whole := Split(t);
    assert whole[0] == front[0];
    assert whole[1..] == front[1..] + back;
    var first := [c] + front[0];
    assert ([first] + front[1..]) + back == [first] + (front[1..] + back);
  }

  /** A leading whitespace character ends an empty first field. */
  lemma SplitAfterWhiteSpace(c: char, t: string)
    requires IsWhiteSpace(c)
    ensures Split([c] + t) == [""] + Split(t)
  {
    assert ([c] + t)[1..] == t;
  }

  /** A leading non-whitespace character starts the first field. */
  lemma SplitAfterChar(c: char, t: string)
    requires !IsWhiteSpace(c)
    ensures Split([c] + t) == [[c] + Split(t)[0]] + Split(t)[1..]
  {
    assert ([c] + t)[1..] == t;
  }



  /** A string with no whitespace is one field. */
  lemma {:induction false} SplitOfNoWhiteSpace(s: string)
    requires NoWhiteSpace(s)
    ensures Split(s) == [s]
    decreases |s|
  {
    if s != [] {
      SplitOfNoWhiteSpace(s[1..]);
      assert [s[0]] + s[1..] == s;
    }
  }

  /** Text that ends in whitespace tokenises independently of what follows it. */
  lemma TokensAppend(a: string, b: string)
    requires a == [] || IsWhiteSpace(a[|a| - 1])
    ensures Tokens(a + b) == Tokens(a) + Tokens(b)
  {
    if a == [] {
      assert a + b == b;
    } else {
      var a', w := a[..|a| - 1], a[|a| - 1];
      assert a + b == a' + [w] + b;
      assert a == a' + [w] + [];
      SplitAround(a', w, b);
      SplitAround(a', w, []);
      NonEmptyAppend(Split(a'), Split(b));
      NonEmptyAppend(Split(a'), [""]);
    }
  }

  /** A word followed by one space is exactly that one token. */
  lemma TokensOfWordAndSpace(w: string)
    requires IsWord(w)
    ensures Tokens(w + " ") == [w]
  {
    assert w + " " == w + [' '] + [];
    SplitAround(w, ' ', []);
    SplitOfNoWhiteSpace(w);
    NonEmptyAppend([w], [""]);
  }

  /** A word with nothing after it is exactly that one token. */
  lemma TokensOfWord(w: string)
    requires IsWord(w)
    ensures Tokens(w) == [w]
  {
    SplitOfNoWhiteSpace(w);
    assert [w][1..] == [];
    assert NonEmpty([w]) == [w] + NonEmpty([]);
  }

  /** Whitespace before or after the text adds no token. */
  lemma TokensIgnoreOuterWhiteSpace(s: string, w: char)
    requires IsWhiteSpace(w)
    ensures Tokens([w] + s) == Tokens(s)
    ensures Tokens(s + [w]) == Tokens(s)
  {
    assert [w] + s == [] + [w] + s;
    SplitAround([], w, s);
    NonEmptyAppend([""], Split(s));
    assert s + [w] == s + [w] + [];
    SplitAround(s, w, []);
    NonEmptyAppend(Split(s), [""]);
  }

  /** A run of two whitespace characters tokenises like one. */
  lemma TokensIgnoreRepeatedWhiteSpace(a: string, w: char, w': char, b: string)
    requires IsWhiteSpace(w) && IsWhiteSpace(w')
    ensures Tokens(a + [w, w'] + b) == Tokens(a + [w] + b)
  {
    var a1 := a + [w];
    assert a + [w, w'] + b == a1 + ([w'] + b);
    assert a + [w] + b == a1 + b;
    TokensAppend(a1, [w'] + b);
    TokensAppend(a1, b);
    TokensIgnoreOuterWhiteSpace(b, w');
  }

  // ---------------------------------------------------------------------------
  // The writer's number lines: every value followed by one space
  // ---------------------------------------------------------------------------

  /** The words, each followed by exactly one space. */
  function JoinTrailing(ws: seq<string>): (s: string)
    ensures ws != [] ==> |s| > 0 && s[|s| - 1] == ' '
    decreases |ws|
  {
    if ws == [] then "" else JoinTrailing(ws[..|ws| - 1]) + ws[|ws| - 1] + " "
  }

  /** Tokenising a space-terminated list of words gives the words back. */
  lemma {:induction false} TokensOfJoinTrailing(ws: seq<string>)
    requires forall i :: 0 <= i < |ws| ==> IsWord(ws[i])
    ensures Tokens(JoinTrailing(ws)) == ws
    decreases |ws|
  {
    if ws != [] {
      var init, last := ws[..|ws| - 1], ws[|ws| - 1];
      TokensOfJoinTrailing(init);
      var prefix := JoinTrailing(init);
      assert JoinTrailing(ws) == prefix + (last + " ");
      TokensAppend(prefix, last + " ");
      TokensOfWordAndSpace(last);
      assert init + [last] == ws;
    }
  }

  /** A space-terminated list of words holds no line break. */
  lemma {:induction false} JoinTrailingIsLine(ws: seq<string>)
    requires forall i :: 0 <= i < |ws| ==> IsWord(ws[i])
    ensures IsLine(JoinTrailing(ws))
    decreases |ws|
  {
    if ws != [] {
      JoinTrailingIsLine(ws[..|ws| - 1]);
    }
  }

  // ---------------------------------------------------------------------------
  // Lines: `StringBuilder.AppendLine` and `TextReader.ReadLine`
  // ---------------------------------------------------------------------------

  /** `Environment.NewLine` on the Unix platforms the model assumes. */
  const NewLine: string := "\n"

  /** The position of the first line break, or the length when there is none. */
  function LineEnd(s: string): (k: nat)
    ensures k <= |s|
    ensures forall j :: 0 <= j < k ==> !IsLineBreak(s[j])
    ensures k < |s| ==> IsLineBreak(s[k])
    decreases |s|
  {
    if s == [] || IsLineBreak(s[0]) then 0 else 1 + LineEnd(s[1..])
  }

  /** What is left after `ReadLine` consumed one line and its "\n", "\r" or "\r\n". */
  function AfterLine(s: string): (rest: string)
    requires s != []
    ensures |rest| < |s|
  {
    var k := LineEnd(s);
    if k == |s| then ""
    else if s[k] == '\r' && k + 1 < |s| && s[k + 1] == '\n' then s[k + 2..]
    else s[k + 1..]
  }

  /** The lines successive `ReadLine` calls return before the first null. */
  function Lines(text: string): seq<string>
    decreases |text|
  {
    if text == [] then [] else [text[..LineEnd(text)]] + Lines(AfterLine(text))
  }

  /** A line followed by a line break ends exactly at that break. */
  lemma LineEndAtBreak(l: string, text: string)
    requires IsLine(l) && |l| < |text| && text[..|l|] == l && IsLineBreak(text[|l|])
    ensures LineEnd(text) == |l|
  {
    assert forall j :: 0 <= j < |l| ==> text[j] == l[j];
  }

  /** `ReadLine` returns a line ended by "\n" without it and goes on after it. */
  lemma LinesAfterLineFeed(l: string, t: string)
    requires IsLine(l)
    ensures Lines(l + "\n" + t) == [l] + Lines(t)
  {
    var text := l + "\n" + t;
    assert text[..|l|] == l;
    LineEndAtBreak(l, text);
    assert text[|l| + 1..] == t;
  }

  /** `ReadLine` consumes "\r\n" as one terminator: no empty line between the two. */
  lemma LinesAfterCarriageReturnLineFeed(l: string, t: string)
    requires IsLine(l)
    ensures Lines(l + "\r\n" + t) == [l] + Lines(t)
  {
    var text := l + "\r\n" + t;
    assert text[..|l|] == l;
    LineEndAtBreak(l, text);
    assert text[|l| + 2..] == t;
  }

  /** A "\r" that no "\n" follows ends a line on its own. */
  lemma LinesAfterCarriageReturn(l: string, t: string)
    requires IsLine(l) && (t == [] || t[0] != '\n')
    ensures Lines(l + "\r" + t) == [l] + Lines(t)
  {
    var text := l + "\r" + t;
    assert text[..|l|] == l;
    LineEndAtBreak(l, text);
    assert text[|l| + 1..] == t;
  }

  /** The last line of a text may go unterminated. */
  lemma LinesOfUnterminatedLine(l: string)
    requires IsLine(l) && l != []
    ensures Lines(l) == [l]
  {
    assert l[..LineEnd(l)] == l;
  }

  /** The text `AppendLine` builds from the lines, each terminated by `NewLine`. */
  function JoinLines(lines: seq<string>): string
    decreases |lines|
  {
    if lines == [] then "" else lines[0] + NewLine + JoinLines(lines[1..])
  }

  lemma {:induction false} JoinLinesAppend(a: seq<string>, b: seq<string>)
    ensures JoinLines(a + b) == JoinLines(a) + JoinLines(b)
    decreases |a|
  {
    if a == [] {
      assert a + b == b;
    } else {
      assert (a + b)[0] == a[0];
      assert (a + b)[1..] == a[1..] + b;
      JoinLinesAppend(a[1..], b);
    }
  }

  /** Reading back text written line by line gives the same lines, if none holds a line break. */
  lemma {:induction false} LinesOfJoinLines(lines: seq<string>)
    requires forall i :: 0 <= i < |lines| ==> IsLine(lines[i])
    ensures Lines(JoinLines(lines)) == lines
    decreases |lines|
  {
    if lines != [] {
      var l, text := lines[0], JoinLines(lines);
      var rest := JoinLines(lines[1..]);
      assert text == l + "\n" + rest;
      LinesAfterLineFeed(l, rest);
      LinesOfJoinLines(lines[1..]);
    }
  }
}
