/**
 Splitting text into words. `SplitWords` is `string.Split` with a null separator
 array and `StringSplitOptions.RemoveEmptyEntries`: the maximal runs of
 non-whitespace characters, in order. `Tokens` lowercases each of them, which
 is what both tokenizers emit for a piece of text they process.
 */
module Words {
  import opened Text

  /** Length of the leading run of non-whitespace characters of `s`. */
  function RunLength(s: string): (n: nat)
    ensures n <= |s|
    ensures forall i :: 0 <= i < n ==> !IsWhiteSpace(s[i])
    ensures n < |s| ==> IsWhiteSpace(s[n])
  {
    if s == [] || IsWhiteSpace(s[0]) then 0 else 1 + RunLength(s[1..])
  }

  /** The maximal runs of non-whitespace characters of `s`, left to right. */
  function SplitWords(s: string): seq<string>
    decreases |s|
  {
    if s == [] then []
    else if IsWhiteSpace(s[0]) then SplitWords(s[1..])
    else
      var n := RunLength(s);
      [s[..n]] + SplitWords(s[n..])
  }

  /** Each word lowercased, in order. */
  function LowerAll(words: seq<string>): seq<string> {
    if words == [] then [] else [LowerString(words[0])] + LowerAll(words[1..])
  }

  /** The tokens emitted for `s`: its words, lowercased. */
  function Tokens(s: string): seq<string> {
    LowerAll(SplitWords(s))
  }

  /** A text that may be cut after its end without cutting a word. */
  predicate AtBoundary(p: string) {
    p == [] || IsWhiteSpace(p[|p| - 1])
  }

  /** `words` joined with `sep` between consecutive elements (`string.Join`). */
  function JoinWith(words: seq<string>, sep: string): string
    decreases |words|
  {
    if |words| == 0 then []
    else if |words| == 1 then words[0]
    else words[0] + sep + JoinWith(words[1..], sep)
  }

  /** The characters of `s` that are not whitespace, in order. */
  function NonWhitespace(s: string): string {
    if s == [] then []
    else if IsWhiteSpace(s[0]) then NonWhitespace(s[1..])
    else [s[0]] + NonWhitespace(s[1..])
  }

  function Concat(words: seq<string>): string {
    if words == [] then [] else words[0] + Concat(words[1..])
  }

  /** Every word is non-empty and holds no whitespace. */
  lemma {:induction false} WordsShape(s: string)
    ensures forall i :: 0 <= i < |SplitWords(s)| ==> SplitWords(s)[i] != [] && NoWhitespace(SplitWords(s)[i])
    decreases |s|
  {
    if s == [] {
    } else if IsWhiteSpace(s[0]) {
      WordsShape(s[1..]);
    } else {
      var n := RunLength(s);
      WordsShape(s[n..]);
    }
  }

  /** The words, put back together, are exactly the non-whitespace characters of `s`:
      no character is lost, duplicated or reordered. */
  lemma {:induction false} WordsCoverText(s: string)
    ensures Concat(SplitWords(s)) == NonWhitespace(s)
    decreases |s|
  {
    if s == [] {
    } else if IsWhiteSpace(s[0]) {
      WordsCoverText(s[1..]);
    } else {
      var n := RunLength(s);
      WordsCoverText(s[n..]);
      var w := s[..n];
      assert SplitWords(s) == [w] + SplitWords(s[n..]);
      assert ([w] + SplitWords(s[n..]))[1..] == SplitWords(s[n..]);
      NonWhitespaceOfRun(s, n);
    }
  }

  /** A leading run of non-whitespace characters passes through `NonWhitespace` unchanged. */
  lemma {:induction false} NonWhitespaceOfRun(s: string, n: nat)
    requires n <= |s|
    requires forall i :: 0 <= i < n ==> !IsWhiteSpace(s[i])
    ensures NonWhitespace(s) == s[..n] + NonWhitespace(s[n..])
    decreases n
  {
    if n > 0 {
      NonWhitespaceOfRun(s[1..], n - 1);
      assert s[1..][..n - 1] == s[1..n];
      assert s[1..][n - 1..] == s[n..];
      assert s[..n] == [s[0]] + s[1..n];
    }
  }

  /** Text with no whitespace is one word, or none when it is empty. */
  lemma WordsOfRun(s: string)
    requires NoWhitespace(s)
    ensures SplitWords(s) == if s == [] then [] else [s]
  {
    if s != [] {
      var n := RunLength(s);
      assert n == |s|;
      assert s[..n] == s;
      assert s[n..] == [];
    }
  }

  /** Whitespace-only text has no words. */
  lemma {:induction false} WordsOfBlank(s: string)
    requires IsNullOrWhiteSpace(s)
    ensures SplitWords(s) == []
    decreases |s|
  {
    if s != [] {
      WordsOfBlank(s[1..]);
    }
  }

  /** The leading run of `p + q` is that of `p` when it ends inside `p`, or when `q`
      starts with whitespace. */
  lemma RunLengthConcat(p: string, q: string)
    requires RunLength(p) < |p| || q == [] || IsWhiteSpace(q[0])
    ensures RunLength(p + q) == RunLength(p)
  {
    var m := RunLength(p);
    var n := RunLength(p + q);
    if m < |p| {
      assert (p + q)[m] == p[m];
    } else if q != [] {
      assert (p + q)[m] == q[0];
    }
  }

  /** Cutting text at a whitespace character does not change its words: this is the
      boundary-recovery fact the chunked tokenizer relies on. */
  lemma {:induction false} WordsConcat(p: string, q: string)
    requires AtBoundary(p) || q == [] || IsWhiteSpace(q[0])
    ensures SplitWords(p + q) == SplitWords(p) + SplitWords(q)
    decreases |p|, 1
  {
    if p == [] {
      assert p + q == q;
    } else if IsWhiteSpace(p[0]) {
      assert (p + q)[1..] == p[1..] + q;
      WordsConcat(p[1..], q);
    } else {
      WordsConcatAfterRun(p, q);
    }
  }

  /** The case of `WordsConcat` where `p` starts with a word: that word is also the
      first word of `p + q`, and the rest follows by induction. */
  lemma {:induction false} WordsConcatAfterRun(p: string, q: string)
    requires p != [] && !IsWhiteSpace(p[0])
    requires AtBoundary(p) || q == [] || IsWhiteSpace(q[0])
    ensures SplitWords(p + q) == SplitWords(p) + SplitWords(q)
    decreases |p|, 0
  {
    var m := RunLength(p);
    WordsOfLeadingRun(p);
    LeadingRunOfConcat(p, q);
    BoundaryAfterRun(p);
    WordsConcat(p[m..], q);
    ConsConcat(p[..m], SplitWords(p[m..]), SplitWords(q));
  }

  /** Text that starts with a word: that word, then the words of what follows it. */
  lemma WordsOfLeadingRun(s: string)
    requires s != [] && !IsWhiteSpace(s[0])
    ensures SplitWords(s) == [s[..RunLength(s)]] + SplitWords(s[RunLength(s)..])
  {
  }

  /** The first word of `p` is also the first word of `p + q`. */
  lemma LeadingRunOfConcat(p: string, q: string)
    requires p != [] && !IsWhiteSpace(p[0])
    requires AtBoundary(p) || q == [] || IsWhiteSpace(q[0])
    ensures SplitWords(p + q) == [p[..RunLength(p)]] + SplitWords(p[RunLength(p)..] + q)
  {
    var m := RunLength(p);
    RunLengthConcat(p, q);
    WordsOfLeadingRun(p + q);
    SlicesOfConcat(p, q, m);
  }

  /** Cutting `p + q` inside `p`. */
  lemma SlicesOfConcat(p: string, q: string, m: nat)
    requires m <= |p|
    ensures (p + q)[..m] == p[..m]
    ensures (p + q)[m..] == p[m..] + q
  {
  }

  /** What follows the leading run still ends at a boundary when the text does. */
  lemma BoundaryAfterRun(p: string)
    ensures AtBoundary(p) ==> AtBoundary(p[RunLength(p)..])
  {
    var m := RunLength(p);
    if AtBoundary(p) && p != [] {
      assert m < |p|;
      assert p[m..][|p[m..]| - 1] == p[|p| - 1];
    }
  }

  lemma HeadAndTail<T>(s: seq<T>)
    requires s != []
    ensures s == [s[0]] + s[1..]
  {
  }

  lemma ConsConcat(w: string, a: seq<string>, b: seq<string>)
    ensures [w] + (a + b) == ([w] + a) + b
  {
  }

  lemma {:induction false} LowerAllAt(words: seq<string>)
    ensures |LowerAll(words)| == |words|
    ensures forall i :: 0 <= i < |words| ==> LowerAll(words)[i] == LowerString(words[i])
    decreases |words|
  {
    if words != [] {
      LowerAllAt(words[1..]);
    }
  }

  lemma {:induction false} LowerAllConcat(a: seq<string>, b: seq<string>)
    ensures LowerAll(a + b) == LowerAll(a) + LowerAll(b)
    decreases |a|
  {
    if a == [] {
      assert a + b == b;
    } else {
      assert (a + b)[1..] == a[1..] + b;
      LowerAllConcat(a[1..], b);
    }
  }

  /** `Tokens` distributes over a cut at whitespace. */
  lemma TokensConcat(p: string, q: string)
    requires AtBoundary(p) || q == [] || IsWhiteSpace(q[0])
    ensures Tokens(p + q) == Tokens(p) + Tokens(q)
  {
    WordsConcat(p, q);
    LowerAllConcat(SplitWords(p), SplitWords(q));
  }

  /** Every token is non-empty, holds no whitespace and is its own lowercase. */
  lemma TokensShape(s: string)
    ensures forall i :: 0 <= i < |Tokens(s)| ==>
      && Tokens(s)[i] != []
      && NoWhitespace(Tokens(s)[i])
      && LowerString(Tokens(s)[i]) == Tokens(s)[i]
  {
    WordsShape(s);
    LowerAllAt(SplitWords(s));
    forall i | 0 <= i < |Tokens(s)|
      ensures Tokens(s)[i] != [] && NoWhitespace(Tokens(s)[i]) && LowerString(Tokens(s)[i]) == Tokens(s)[i]
    {
      LowerStringProperties(SplitWords(s)[i]);
    }
  }

  /** Empty or whitespace-only text yields no tokens. */
  lemma TokensOfBlank(s: string)
    requires IsNullOrWhiteSpace(s)
    ensures Tokens(s) == []
  {
    WordsOfBlank(s);
  }

  /** Surrounding whitespace, however much of it, adds no tokens. */
  lemma TokensIgnorePadding(before: string, s: string, after: string)
    requires IsNullOrWhiteSpace(before) && IsNullOrWhiteSpace(after)
    ensures Tokens(before + s + after) == Tokens(s)
  {
    if after != [] {
      TokensConcat(before + s, after);
    }
    TokensOfBlank(after);
    WordsConcat(before, s);
    LowerAllConcat(SplitWords(before), SplitWords(s));
    TokensOfBlank(before);
    assert before + s + after == (before + s) + after;
    if after == [] {
      assert before + s + after == before + s;
    }
  }

  /** Words joined by a whitespace separator split back into the same words. */
  lemma {:induction false} WordsOfJoin(words: seq<string>, sep: string)
    requires sep != [] && IsNullOrWhiteSpace(sep)
    requires forall i :: 0 <= i < |words| ==> words[i] != [] && NoWhitespace(words[i])
    ensures SplitWords(JoinWith(words, sep)) == words
    decreases |words|
  {
    if |words| == 1 {
      WordsOfRun(words[0]);
    } else if |words| > 1 {
      var rest := JoinWith(words[1..], sep);
      WordsOfJoin(words[1..], sep);
      assert words[0] + sep + rest == words[0] + (sep + rest);
      WordsConcat(words[0], sep + rest);
      WordsConcat(sep, rest);
      WordsOfRun(words[0]);
      WordsOfBlank(sep);
      HeadAndTail(words);
    }
  }

  /** Hence the token count of such a text is its word count, each token the word lowercased. */
  lemma TokensOfJoin(words: seq<string>, sep: string)
    requires sep != [] && IsNullOrWhiteSpace(sep)
    requires forall i :: 0 <= i < |words| ==> words[i] != [] && NoWhitespace(words[i])
    ensures |Tokens(JoinWith(words, sep))| == |words|
    ensures forall i :: 0 <= i < |words| ==> Tokens(JoinWith(words, sep))[i] == LowerString(words[i])
  {
    WordsOfJoin(words, sep);
    LowerAllAt(words);
  }

  /** The split itself does no punctuation stripping: a trailing comma stays on its word. */
  lemma TrailingCommaKept()
    ensures Tokens("hello, world") == ["hello,", "world"]
  {
    HelloWorldWords();
    HelloWorldLower();
  }

  lemma HelloWorldWords()
    ensures SplitWords("hello, world") == ["hello,", "world"]
  {
    var words := ["hello,", "world"];
    assert NoWhitespace(words[0]);
    assert NoWhitespace(words[1]);
    assert IsNullOrWhiteSpace(" ");
    HelloWorldJoin();
    WordsOfJoin(words, " ");
  }

  lemma HelloWorldJoin()
    ensures JoinWith(["hello,", "world"], " ") == "hello, world"
  {
    assert ["hello,", "world"][1..] == ["world"];
  }

  lemma HelloWorldLower()
    ensures LowerAll(["hello,", "world"]) == ["hello,", "world"]
  {
    var words := ["hello,", "world"];
    assert LowerString("hello,") == "hello,";
    assert LowerString("world") == "world";
    assert words[1..] == ["world"];
    assert LowerAll(words[1..]) == [LowerString(words[1])] + LowerAll([]);
  }

  /**
   The foreach that yields `word.ToLowerInvariant()` for each field of
   `text.Split(...)`: appends the tokens of `text` to those emitted so far.
   */
  method Emit(tokens: seq<string>, text: string) returns (emitted: seq<string>)
    ensures emitted == tokens + Tokens(text)
  {
    var words := SplitWords(text);
    emitted := tokens;
    for i := 0 to |words|
      invariant emitted == tokens + LowerAll(words[..i])
    {
      assert words[..i + 1] == words[..i] + [words[i]];
      LowerAllConcat(words[..i], [words[i]]);
      emitted := emitted + [LowerString(words[i])];
    }
    assert words[..|words|] == words;
  }
}
