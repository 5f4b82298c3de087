/**
 The chunked streaming tokenizer. It reads the text in buffer-fulls, keeps the
 characters after the last whitespace of what it has read (the leftover) for
 the next read, and emits the lowercased words of everything before it. Its
 output equals the tokens of the whole text, for every buffer size.
 */
module ChunkedTokenizer {
  import opened Text
  import opened Words
  import opened Reader

  /** The buffer size used when the caller gives none. */
  const DefaultBufferSize: int := 4096

  /** The backward scan for the last whitespace character of `text`, -1 when there is none. */
  method LastWhitespace(text: string) returns (lastWhitespace: int)
    ensures -1 <= lastWhitespace < |text|
    ensures lastWhitespace >= 0 ==> IsWhiteSpace(text[lastWhitespace])
    ensures forall j :: lastWhitespace < j < |text| ==> !IsWhiteSpace(text[j])
  {
    lastWhitespace := -1;
    var i := |text| - 1;
    while i >= 0
      invariant -1 <= i < |text|
      invariant lastWhitespace == -1
      invariant forall j :: i < j < |text| ==> !IsWhiteSpace(text[j])
    {
      if IsWhiteSpace(text[i]) {
        lastWhitespace := i;
        break;
      }
      i := i - 1;
    }
  }

  /** The leftover flushed at the end of the stream: it holds no whitespace, so it
      yields one token, the whole leftover lowercased, or nothing when it is empty. */
  lemma FinalFlush(leftover: string)
    requires NoWhitespace(leftover)
    ensures Tokens(leftover) == if leftover == [] then [] else [LowerString(leftover)]
    ensures !IsNullOrWhiteSpace(leftover) <==> leftover != []
  {
    WordsOfRun(leftover);
    if leftover != [] {
      assert !IsWhiteSpace(leftover[0]);
      assert LowerAll([leftover]) == [LowerString(leftover)] + LowerAll([]);
    }
  }

  /**
   The decision taken on each working text (the leftover followed by the chunk
   just read): after a short read everything is ready; after a full read with no
   whitespace nothing is, and the whole text is kept; otherwise the text is cut
   after its last whitespace character. `ready` is false exactly in the middle case.
   */
  method Divide(text: string, fullRead: bool) returns (toProcess: string, leftover: string, ready: bool)
    ensures text == toProcess + leftover
    ensures !fullRead ==> ready && toProcess == text && leftover == []
    ensures fullRead ==> NoWhitespace(leftover) && AtBoundary(toProcess)
    ensures ready <==> !fullRead || !NoWhitespace(text)
    ensures !ready ==> toProcess == []
  {
    var lastWhitespace := LastWhitespace(text);
    if !fullRead {
      toProcess, leftover, ready := text, [], true;
    } else if lastWhitespace == -1 {
      toProcess, leftover, ready := [], text, false;
    } else {
      toProcess := text[..lastWhitespace + 1];
      leftover := text[lastWhitespace + 1..];
      ready := true;
      assert text == toProcess + leftover;
    }
  }

  /** What the tokenizer has done once `input[..position]` is read: the text splits into
      `processed`, whose tokens are emitted, and the leftover, which holds no whitespace;
      `processed` ends at a boundary unless the stream is exhausted and nothing is left over. */
  ghost predicate Consumed(input: string, position: nat, processed: string, leftover: string) {
    && position <= |input|
    && input[..position] == processed + leftover
    && NoWhitespace(leftover)
    && (AtBoundary(processed) || (position == |input| && leftover == []))
  }

  /** One iteration of the read loop keeps `Consumed`, and the tokens of the part made
      ready extend those emitted before. */
  lemma ConsumeChunk(input: string, before: nat, chunk: string, processed: string, leftover: string,
                     toProcess: string, rest: string, fullRead: bool)
    requires Consumed(input, before, processed, leftover)
    requires chunk != [] && before + |chunk| <= |input| && chunk == input[before..before + |chunk|]
    requires !fullRead ==> before + |chunk| == |input|
    requires leftover + chunk == toProcess + rest
    requires !fullRead ==> rest == []
    requires fullRead ==> NoWhitespace(rest) && AtBoundary(toProcess)
    ensures Consumed(input, before + |chunk|, processed + toProcess, rest)
    ensures Tokens(processed + toProcess) == Tokens(processed) + Tokens(toProcess)
  {
    calc {
      input[..before + |chunk|];
      input[..before] + chunk;
      processed + (leftover + chunk);
      (processed + toProcess) + rest;
    }
    TokensConcat(processed, toProcess);
    if toProcess != [] {
      assert (processed + toProcess)[|processed + toProcess| - 1] == toProcess[|toProcess| - 1];
    }
  }

  /** At the end of the stream the whole text is `processed` followed by the leftover,
      and its tokens are theirs. */
  lemma EndOfStream(input: string, processed: string, leftover: string)
    requires Consumed(input, |input|, processed, leftover)
    ensures Tokens(input) == Tokens(processed) + Tokens(leftover)
    ensures Tokens(leftover) == if leftover == [] then [] else [LowerString(leftover)]
    ensures !IsNullOrWhiteSpace(leftover) <==> leftover != []
  {
    assert input[..|input|] == input;
    TokensConcat(processed, leftover);
    FinalFlush(leftover);
  }

  class ChunkedWordTokenizer {
    const bufferSize: int

    /** The buffer size defaults to `DefaultBufferSize` when the caller gives none. */
    constructor (bufferSize: int := DefaultBufferSize)
      ensures this.bufferSize == bufferSize
    {
      this.bufferSize := bufferSize;
    }

    /** Tokenizes the stream whose text is `input`. */
    method Tokenize(input: string) returns (tokens: seq<string>)
      requires bufferSize > 0
      ensures tokens == Tokens(input)
    {
      var reader := new TextReader(input);
      var buffer := new char[bufferSize];
      var leftover: string := [];
      // the text read so far, up to the leftover
      ghost var processed: string := [];
      tokens := [];
      while true
        invariant reader.Valid() && reader.content == input
        invariant buffer.Length == bufferSize
        invariant Consumed(input, reader.position, processed, leftover)
        invariant tokens == Tokens(processed)
        decreases |input| - reader.position
      {
        ghost var before := reader.position;
        var charsRead := reader.Read(buffer);
        if charsRead == 0 {
          break;
        }
        var chunk := buffer[..charsRead];
        var text := leftover + chunk;
        var toProcess, rest, ready := Divide(text, charsRead == buffer.Length);
        ConsumeChunk(input, before, chunk, processed, leftover, toProcess, rest, charsRead == buffer.Length);
        leftover := rest;
        if !ready {
          continue;
        }
        tokens := Emit(tokens, toProcess);
        processed := processed + toProcess;
      }

      EndOfStream(input, processed, leftover);
      if !IsNullOrWhiteSpace(leftover) {
        tokens := Emit(tokens, leftover);
      }
    }
  }

  /** A tokenizer built without a buffer size reads 4096 characters at a time. */
  method DefaultTokenizer() returns (tokenizer: ChunkedWordTokenizer)
    ensures tokenizer.bufferSize == 4096
  {
    tokenizer := new ChunkedWordTokenizer();
  }

  /** A word longer than the buffer is emitted whole: `"hello " + 20 * "a" + " world"`
      has exactly three tokens, the middle one twenty characters long. */
  lemma LongWordExample()
    ensures var long := seq(20, _ => 'a');
      Tokens("hello " + long + " world") == ["hello", long, "world"]
  {
    var long := seq(20, _ => 'a');
    var words := ["hello", long, "world"];
    assert NoWhitespace(words[0]) && NoWhitespace(words[1]) && NoWhitespace(words[2]);
    assert IsNullOrWhiteSpace(" ");
    assert words[1..] == [long, "world"];
    assert words[1..][1..] == ["world"];
    assert JoinWith(words[1..][1..], " ") == "world";
    assert JoinWith(words[1..], " ") == long + " " + "world";
    assert JoinWith(words, " ") == "hello" + " " + (long + " " + "world");
    assert "hello" + " " + (long + " " + "world") == "hello " + long + " world";
    WordsOfJoin(words, " ");
    LowerAllAt(words);
    assert LowerString("hello") == "hello";
    assert LowerString(long) == long;
    assert LowerString("world") == "world";
  }
}
