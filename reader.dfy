/**
 A `StreamReader` over one source's text, as the tokenizers use it: `Read`
 fills a caller's buffer with the next characters, and `ReadLine` returns the
 next line without its terminator (a line ends at "\n", "\r" or "\r\n").
 The text is the decoded content of the stream; decoding is not modelled.
 */
module Reader {
  import opened Text

  datatype Option<T> = None | Some(value: T)

  function Min(a: int, b: int): int {
    if a <= b then a else b
  }

  predicate IsLineBreak(c: char) {
    c == '\n' || c == '\r'
  }

  /** Index of the first line break of `s`, or `|s|` when there is none. */
  function LineEnd(s: string): (j: nat)
    ensures j <= |s|
    ensures forall i :: 0 <= i < j ==> !IsLineBreak(s[i])
    ensures j < |s| ==> IsLineBreak(s[j])
  {
    if s == [] || IsLineBreak(s[0]) then 0 else 1 + LineEnd(s[1..])
  }

  /** Where the line after the first one starts: past "\r\n", or past one break character. */
  function NextLineStart(s: string): (k: nat)
    ensures LineEnd(s) <= k <= |s|
    ensures s != [] ==> k > 0
  {
    var j := LineEnd(s);
    if j == |s| then j
    else if s[j] == '\r' && j + 1 < |s| && s[j + 1] == '\n' then j + 2
    else j + 1
  }

  /** The lines `ReadLine` returns, one after the other, for text `s`. */
  function SplitLines(s: string): seq<string>
    decreases |s|
  {
    if s == [] then [] else [s[..LineEnd(s)]] + SplitLines(s[NextLineStart(s)..])
  }

  /** What separates a line from the next is whitespace. */
  lemma TerminatorIsWhitespace(s: string)
    ensures IsNullOrWhiteSpace(s[LineEnd(s)..NextLineStart(s)])
  {
  }

  class TextReader {
    const content: string
    var position: nat

    ghost predicate Valid()
      reads this
    {
      position <= |content|
    }

    constructor (content: string)
      ensures Valid() && this.content == content && position == 0
    {
      this.content := content;
      position := 0;
    }

    /** `Read(buffer, 0, buffer.Length)`: copies up to `buffer.Length` of the remaining
        characters into `buffer`; fewer only when the text runs out. */
    method Read(buffer: array<char>) returns (charsRead: nat)
      requires Valid()
      modifies this, buffer
      ensures Valid()
      ensures charsRead == Min(buffer.Length, |content| - old(position))
      ensures position == old(position) + charsRead
      ensures buffer[..charsRead] == content[old(position)..position]
      ensures buffer[charsRead..] == old(buffer[charsRead..])
    {
      charsRead := 0;
      while charsRead < buffer.Length && position < |content|
        invariant Valid()
        invariant charsRead <= buffer.Length
        invariant position == old(position) + charsRead
        invariant forall k :: 0 <= k < charsRead ==> buffer[k] == content[old(position) + k]
        invariant forall k :: charsRead <= k < buffer.Length ==> buffer[k] == old(buffer[k])
        decreases buffer.Length - charsRead
      {
        buffer[charsRead] := content[position];
        charsRead := charsRead + 1;
        position := position + 1;
      }
    }

    /** `ReadLine`: the next line without its terminator, or `None` at the end of the text. */
    method ReadLine() returns (line: Option<string>)
      requires Valid()
      modifies this
      ensures Valid()
      ensures old(position) == |content| ==> line == None && position == old(position)
      ensures old(position) < |content| ==>
        var rest := content[old(position)..];
        && line == Some(rest[..LineEnd(rest)])
        && position == old(position) + NextLineStart(rest)
    {
      if position == |content| {
        return None;
      }
      ghost var rest := content[position..];
      var j := position;
      while j < |content| && !IsLineBreak(content[j])
        invariant position <= j <= |content|
        invariant forall i :: position <= i < j ==> !IsLineBreak(content[i])
      {
        j := j + 1;
      }
      assert j - position == LineEnd(rest);
      assert rest[..j - position] == content[position..j];
      line := Some(content[position..j]);
      if j == |content| {
        position := j;
      } else if content[j] == '\r' && j + 1 < |content| && content[j + 1] == '\n' {
        position := j + 2;
      } else {
        position := j + 1;
      }
    }
  }
}
