/**
 The line-based tokenizer: it reads the text line by line and emits the
 lowercased whitespace-separated fields of each line. As line terminators are
 whitespace, its output is the tokens of the whole text, the same as the
 chunked tokenizer's.
 */
module BasicTokenizer {
  import opened Text
  import opened Words
  import opened Reader

  /** The tokens of each line, line after line. */
  function TokensOfLines(lines: seq<string>): seq<string> {
    if lines == [] then [] else Tokens(lines[0]) + TokensOfLines(lines[1..])
  }

  /** `Tokenize`: one `ReadLine` after another until it returns `None`. */
  method Tokenize(input: string) returns (tokens: seq<string>)
    ensures tokens == Tokens(input)
    ensures tokens == TokensOfLines(SplitLines(input))
  {
    var reader := new TextReader(input);
    tokens := [];
    assert input[0..] == input;
    while true
      invariant reader.Valid() && reader.content == input
      invariant Tokens(input) == tokens + Tokens(input[reader.position..])
      decreases |input| - reader.position
    {
      ghost var before := reader.position;
      var line := reader.ReadLine();
      if line.None? {
        break;
      }
      ReadLineStep(input, tokens, before, line.value);
      tokens := Emit(tokens, line.value);
    }
    assert input[reader.position..] == [];
    LinesTokens(input);
  }

  /** One iteration of the read loop: the line read contributes its tokens, and what
      is left after its terminator contributes the rest. */
  lemma ReadLineStep(input: string, tokens: seq<string>, before: nat, line: string)
    requires before < |input|
    requires Tokens(input) == tokens + Tokens(input[before..])
    requires line == input[before..][..LineEnd(input[before..])]
    ensures before + NextLineStart(input[before..]) <= |input|
    ensures Tokens(input) == (tokens + Tokens(line)) + Tokens(input[before + NextLineStart(input[before..])..])
  {
    var rest := input[before..];
    assert rest[NextLineStart(rest)..] == input[before + NextLineStart(rest)..];
    FirstLine(rest);
  }

  /** The tokens of a text are those of its first line followed by those after the
      line's terminator, as every line terminator is whitespace. */
  lemma FirstLine(s: string)
    ensures Tokens(s) == Tokens(s[..LineEnd(s)]) + Tokens(s[NextLineStart(s)..])
  {
    var j, k := LineEnd(s), NextLineStart(s);
    if j == |s| {
      assert s[..j] == s;
      assert s[k..] == [];
    } else {
      Split3(s, j, k);
      TerminatorIsWhitespace(s);
      TokensAroundBlank(s[..j], s[j..k], s[k..]);
    }
  }

  /** A non-empty stretch of whitespace separates the tokens before it from those after it. */
  lemma TokensAroundBlank(line: string, blank: string, rest: string)
    requires blank != [] && IsNullOrWhiteSpace(blank)
    ensures Tokens((line + blank) + rest) == Tokens(line) + Tokens(rest)
  {
    assert (line + blank)[|line + blank| - 1] == blank[|blank| - 1];
    TokensConcat(line + blank, rest);
    TokensConcat(line, blank);
    TokensOfBlank(blank);
  }

  lemma Split3(s: string, i: nat, j: nat)
    requires i <= j <= |s|
    ensures s == (s[..i] + s[i..j]) + s[j..]
  {
  }

  lemma TokensOfLinesCons(line: string, lines: seq<string>)
    ensures TokensOfLines([line] + lines) == Tokens(line) + TokensOfLines(lines)
  {
    assert ([line] + lines)[1..] == lines;
  }

  /** Splitting into lines first does not change the tokens. */
  lemma {:induction false} LinesTokens(s: string)
    ensures TokensOfLines(SplitLines(s)) == Tokens(s)
    decreases |s|
  {
    if s != [] {
      var rest := s[NextLineStart(s)..];
      LinesTokens(rest);
      assert SplitLines(s) == [s[..LineEnd(s)]] + SplitLines(rest);
      TokensOfLinesCons(s[..LineEnd(s)], SplitLines(rest));
      FirstLine(s);
    }
  }
}
