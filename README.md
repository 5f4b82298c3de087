# Word counter: a verified model

This project models the core of a word-frequency counter written in C#. The
counter reads text sources, splits each one into lowercase words, counts the
words of every source in a table of its own, and merges the tables into total
counts. Four pieces are modelled:

- **The chunked tokenizer** (`ChunkedWordTokenizer`). It reads the stream one
  buffer at a time. It keeps the characters after the last whitespace of what it
  has read (the *leftover*) for the next read, and emits the lowercased words of
  everything before that point. At the end of the stream it flushes the leftover.
  The model proves that for every buffer size of at least one, the output is
  `Tokens(input)`: the lowercased maximal runs of non-whitespace characters of
  the whole input, in order.
- **The line tokenizer** (`BasicWordTokenizer`). It reads line by line and
  splits each line. Line terminators are whitespace, so its output is also
  `Tokens(input)`, the same as the chunked tokenizer's.
- **The aggregator** (`DictionaryAggregator.Merge`). It sums tables key by key.
  The model proves that the result is, for every key of any input table, the
  total of that key's counts. It also proves the result does not change when the
  tables are reordered.
- **The orchestrator** (`WordCountOrchestrator`). It counts each source's tokens
  into a local table and merges the tables. The sources are processed in
  parallel. The model runs the per-source step once for each source, in any
  order (a *schedule*). It proves that the result counts every token of every
  source, whatever the schedule.

Modules: `Text` (character classes), `Words` (splitting and `Tokens`), `Reader`
(the stream reader, over the decoded text), `ChunkedTokenizer`,
`BasicTokenizer`, `Aggregator`, `Orchestrator`.

Where the tests and the code disagree, the model follows the code.
`PunctuationTests.cs` expects leading and trailing punctuation to be stripped,
but `ChunkedWordTokenizer.cs:55-58` only splits and lowercases. So `"hello, world"`
gives `"hello,"` and `"world"`, as `Words.TrailingCommaKept` states.

After the final short read (`ChunkedWordTokenizer.cs:37-41`) the processed text
is the whole remaining input, so it may end inside a word. The loop invariant
`ChunkedTokenizer.Consumed` allows that one case. It says that the processed text
ends at a whitespace boundary, or that the stream is exhausted and the leftover
is empty.

## Model

| member | source | states |
|---|---|---|
| Text.LowerStringProperties | WordCounter/Infrastructure/ChunkedWordTokenizer.cs:58 | lowercasing keeps the length, is idempotent, and keeps non-whitespace text free of whitespace |
| Words.RunLength | WordCounter/Infrastructure/ChunkedWordTokenizer.cs:55 | the leading run of non-whitespace: no whitespace before it, whitespace (or the end) right after it |
| Words.WordsShape | WordCounter/Infrastructure/ChunkedWordTokenizer.cs:55 | the split with `RemoveEmptyEntries` yields only non-empty fields with no whitespace |
| Words.WordsCoverText | WordCounter/Infrastructure/ChunkedWordTokenizer.cs:55 | the fields put back together are exactly the non-whitespace characters of the text, in order |
| Words.WordsOfRun | WordCounter/Infrastructure/ChunkedWordTokenizer.cs:65 | text with no whitespace splits into itself alone, or nothing when empty |
| Words.WordsOfBlank | WordCounter/Infrastructure/ChunkedWordTokenizer.cs:63 | whitespace-only text has no fields |
| Words.RunLengthConcat | WordCounter/Infrastructure/ChunkedWordTokenizer.cs:51-52 | appending text after a whitespace character does not change the leading run |
| Words.WordsConcat | WordCounter/Infrastructure/ChunkedWordTokenizer.cs:51-52 | cutting text just after a whitespace character splits its words into those before and those after the cut |
| Words.WordsConcatAfterRun | WordCounter/Infrastructure/ChunkedWordTokenizer.cs:51-52 | the same when the text starts with a word |
| Words.LowerAllAt | WordCounter/Infrastructure/ChunkedWordTokenizer.cs:56-59 | one lowercased token per field, token i being field i lowercased |
| Words.LowerAllConcat | WordCounter/Infrastructure/ChunkedWordTokenizer.cs:56-59 | lowercasing two lists of fields one after the other is lowercasing their concatenation |
| Words.TokensConcat | WordCounter/Infrastructure/ChunkedWordTokenizer.cs:51-52 | the tokens of text cut at whitespace are the tokens of its two parts |
| Words.TokensShape | WordCounter.Tests/ChunkedTokenizerTests.cs:106-133 | every token is non-empty, holds no whitespace and is its own lowercase |
| Words.TokensOfBlank | WordCounter.Tests/ChunkedTokenizerTests.cs:136-143 | empty or whitespace-only text yields no tokens |
| Words.TokensIgnorePadding | WordCounter.Tests/TokenizerTests.cs:57-64 | leading and trailing whitespace adds no tokens |
| Words.WordsOfJoin | WordCounter.Tests/ChunkedTokenizerTests.cs:75-87 | words joined by a whitespace separator split back into exactly those words |
| Words.TokensOfJoin | WordCounter.Tests/ChunkedTokenizerTests.cs:75-87 | such text has as many tokens as words, token i being word i lowercased |
| Words.TrailingCommaKept | WordCounter/Infrastructure/ChunkedWordTokenizer.cs:55-58 | `"hello, world"` tokenizes to `"hello,"` and `"world"`: no punctuation is stripped |
| Words.Emit | WordCounter/Infrastructure/ChunkedWordTokenizer.cs:55-59 | the split-and-yield loop appends exactly `Tokens(text)` to what was already emitted |
| Reader.LineEnd | WordCounter/Infrastructure/BasicWordTokenizer.cs:12 | where the first line ends: no line break before it, a line break (or the end) at it |
| Reader.NextLineStart | WordCounter/Infrastructure/BasicWordTokenizer.cs:12 | the next line starts after the terminator and, in non-empty text, after at least one character |
| Reader.TerminatorIsWhitespace | WordCounter/Infrastructure/BasicWordTokenizer.cs:12 | every line terminator is whitespace |
| Reader.TextReader.constructor | WordCounter/Infrastructure/ChunkedWordTokenizer.cs:16 | a reader over the text, at its start |
| Reader.TextReader.Read | WordCounter/Infrastructure/ChunkedWordTokenizer.cs:21 | copies the next `min(buffer length, remaining)` characters into the buffer and advances by that many; the buffer past them is unchanged |
| Reader.TextReader.ReadLine | WordCounter/Infrastructure/BasicWordTokenizer.cs:12 | `None` at the end; otherwise the next line without its terminator, moving past "\n", "\r" or "\r\n" |
| ChunkedTokenizer.LastWhitespace | WordCounter/Infrastructure/ChunkedWordTokenizer.cs:26-34 | the backward scan finds the last whitespace index, or -1 when there is none |
| ChunkedTokenizer.Divide | WordCounter/Infrastructure/ChunkedWordTokenizer.cs:36-53 | the three branches: a short read processes all; a full read with no whitespace keeps all as leftover; otherwise the cut is right after the last whitespace, with a leftover free of whitespace |
| ChunkedTokenizer.FinalFlush | WordCounter/Infrastructure/ChunkedWordTokenizer.cs:63-70 | the flushed leftover yields one token, itself lowercased, exactly when it is not empty |
| ChunkedTokenizer.ConsumeChunk | WordCounter/Infrastructure/ChunkedWordTokenizer.cs:21-59 | each iteration keeps the invariant: processed text plus leftover is the input read so far, the leftover holds no whitespace, and the emitted tokens extend by the tokens of the new part |
| ChunkedTokenizer.EndOfStream | WordCounter/Infrastructure/ChunkedWordTokenizer.cs:62-70 | at the end of the stream the tokens of the input are those emitted plus those of the flushed leftover |
| ChunkedTokenizer.ChunkedWordTokenizer.constructor | WordCounter/Infrastructure/ChunkedWordTokenizer.cs:9-12 | stores the buffer size, `DefaultBufferSize` (4096) when none is given |
| ChunkedTokenizer.DefaultTokenizer | WordCounter/Infrastructure/ChunkedWordTokenizer.cs:9 | a tokenizer built without a buffer size reads 4096 characters at a time |
| ChunkedTokenizer.ChunkedWordTokenizer.Tokenize | WordCounter/Infrastructure/ChunkedWordTokenizer.cs:14-71 | for every buffer size of at least one, the output is the lowercased words of the whole input |
| ChunkedTokenizer.LongWordExample | WordCounter.Tests/ChunkedTokenizerTests.cs:90-103 | a word longer than the buffer is one token, whole |
| BasicTokenizer.ReadLineStep | WordCounter/Infrastructure/BasicWordTokenizer.cs:12-20 | one iteration adds the tokens of the line read, and the rest follow from what is after its terminator |
| BasicTokenizer.FirstLine | WordCounter/Infrastructure/BasicWordTokenizer.cs:12-14 | the tokens of a text are those of its first line followed by those after the terminator |
| BasicTokenizer.TokensAroundBlank | WordCounter/Infrastructure/BasicWordTokenizer.cs:14 | a non-empty stretch of whitespace separates the tokens before it from those after it |
| BasicTokenizer.LinesTokens | WordCounter.Tests/TokenizerTests.cs:76-82 | tokenizing line by line yields the tokens of the whole text |
| BasicTokenizer.Tokenize | WordCounter/Infrastructure/BasicWordTokenizer.cs:7-21 | the output is the tokens of each line in order, and equals the tokens of the whole text, hence the chunked tokenizer's output |
| Aggregator.Add | WordCounter/Infrastructure/DictionaryAggregator.cs:15-22 | pointwise sum: the keys of either table, each with the sum of its two counts |
| Aggregator.KeysOfMember | WordCounter/Infrastructure/DictionaryAggregator.cs:15-22 | a key is among the merged keys exactly when some input table holds it |
| Aggregator.KeysOfConcat | WordCounter/Infrastructure/DictionaryAggregator.cs:11-24 | the keys of a concatenation of table lists are the union of their keys |
| Aggregator.TotalConcat | WordCounter/Infrastructure/DictionaryAggregator.cs:11-24 | the total of a key over a concatenation is the sum of the two totals |
| Aggregator.TotalOutside | WordCounter/Infrastructure/DictionaryAggregator.cs:15-22 | a key that no table holds has total zero |
| Aggregator.MergedConcat | WordCounter/Infrastructure/DictionaryAggregator.cs:11-24 | merging a ++ b is the pointwise sum of merging a and merging b |
| Aggregator.MergedSnoc | WordCounter/Infrastructure/DictionaryAggregator.cs:11-24 | after i + 1 tables the result is the merge of the first i tables plus the next one |
| Aggregator.MergedSingle | WordCounter.Tests/AggregatorTests.cs:98-110 | a single table merges to itself |
| Aggregator.MergedOfEmpty | WordCounter.Tests/AggregatorTests.cs:56-78 | no tables, or only empty ones, merge to the empty table |
| Aggregator.MergedWithEmpty | WordCounter.Tests/AggregatorTests.cs:41-54 | an empty table anywhere among the inputs changes nothing |
| Aggregator.TotalRemove | WordCounter/Infrastructure/DictionaryAggregator.cs:11-24 | taking one table out takes its count of the key off the total |
| Aggregator.TotalPermutation | WordCounter/Infrastructure/DictionaryAggregator.cs:11-24 | the total of a key is the same for any reordering of the tables |
| Aggregator.TotalPermutationAt | WordCounter/Infrastructure/DictionaryAggregator.cs:11-24 | the inductive step of the same |
| Aggregator.MergedPermutation | WordCounter/Application/WordCountOrchestrator.cs:54 | merging is invariant under any permutation of the input tables |
| Aggregator.OverlapExample | WordCounter.Tests/AggregatorTests.cs:9-23 | {hello: 2, world: 1} and {hello: 3, foo: 1} merge to {hello: 5, world: 1, foo: 1} |
| Aggregator.Merge | WordCounter/Infrastructure/DictionaryAggregator.cs:7-27 | the nested loops yield every key of any input with the sum of its counts over the tables holding it |
| Orchestrator.TallySnoc | WordCounter/Application/WordCountOrchestrator.cs:41-48 | counting one more word raises its count by one, or enters it with count one |
| Orchestrator.TallyConcat | WordCounter/Application/WordCountOrchestrator.cs:34-54 | counting two token lists apart and adding the tables is counting them together |
| Orchestrator.CountTokens | WordCounter/Application/WordCountOrchestrator.cs:36-49 | the local table: its keys are the tokens and each count is the word's number of occurrences, at least one |
| Orchestrator.ScheduledTablesPermutation | WordCounter/Application/WordCountOrchestrator.cs:27 | reordering the schedule reorders the collected tables the same way |
| Orchestrator.ScheduledTablesPermutationAt | WordCounter/Application/WordCountOrchestrator.cs:27 | the inductive step of the same |
| Orchestrator.ScheduledTablesSplit | WordCounter/Application/WordCountOrchestrator.cs:51 | the tables of a schedule split as the schedule does |
| Orchestrator.MergedInOrder | WordCounter/Application/WordCountOrchestrator.cs:34-54 | merging the tables in source order counts every token of every source |
| Orchestrator.ScheduleIndependent | WordCounter.Tests/ParallelProcessingTests.cs:17-40 | whatever the order, the merged tables count every token of every source, so any two degrees of parallelism agree |
| Orchestrator.OneTablePerSource | WordCounter/Application/WordCountOrchestrator.cs:34-52 | each source's table is collected exactly once |
| Orchestrator.WordCountOrchestrator.constructor | WordCounter/Application/WordCountOrchestrator.cs:12-22 | stores the tokenizer and the degree of parallelism, which defaults to -1; -1 is replaced by the processor count, itself at least 1 |
| Orchestrator.WordCountOrchestrator.Process | WordCounter/Application/WordCountOrchestrator.cs:24-55 | a degree of 0 or below -1 ends in `ArgumentOutOfRangeException` (from `ParallelOptions`, lines 29-32) whatever the sources; otherwise, for any schedule, the result is the count of every word over the tokens of all sources |
| Orchestrator.DefaultOrchestrator | WordCounter/Application/WordCountOrchestrator.cs:15-21 | an orchestrator built without a degree of parallelism never throws and reports the total counts |
| Orchestrator.BlankSources | WordCounter.Tests/OrchestratorTests.cs:58-79 | no sources, or only empty or blank ones, give the empty table |
| Orchestrator.AllTokensConcat | WordCounter/Application/WordCountOrchestrator.cs:34-52 | the tokens of two groups of sources are those of the first then those of the second |
| Orchestrator.BlankSourceIgnored | WordCounter.Tests/ParallelProcessingTests.cs:89-105 | a blank source among others changes no count |
| Orchestrator.CountsAreOccurrences | WordCounter.Tests/OrchestratorTests.cs:82-95 | the reported words are exactly the tokens, each with its number of occurrences over all sources |
| Orchestrator.CaseInsensitiveExample | WordCounter.Tests/OrchestratorTests.cs:98-109 | "Hello HELLO hello" gives the single entry hello: 3 |
| Orchestrator.HelloTokens | WordCounter.Tests/OrchestratorTests.cs:98-109 | "Hello HELLO hello" tokenizes to three "hello" |

## Left out

- Streams and encoding. `StreamReader`, `using`, UTF-8 encoding and decoding, `StringTextSource` and `FileTextSource` are not modelled. A source is its decoded text, and the reader works over that text.
- Reader.TextReader.Read: always fills the buffer while text remains. The chunked tokenizer relies on this when it treats a short read as the last one (`ChunkedWordTokenizer.cs:37`). A reader that returned short reads in the middle of the stream is not modelled.
- Concurrency. `Parallel.ForEach`, `ParallelOptions` and `ConcurrentBag` become a sequential loop over a schedule, which is any permutation of the source indices. The merge sees the tables in that order. The degree of parallelism decides whether `Process` throws (`Outcome.ArgumentOutOfRange`, checked before any source is read); past that check it affects only the schedule, and the result is proved the same for every schedule.
- The orchestrator's tokenizer and aggregator interfaces. The tokenizer is a function from text to tokens. Both tokenizer methods are proved to compute `Tokens`, so `Tokens` stands for either one. `Process` calls `Merge` directly, because `DictionaryAggregator` is the only aggregator.
- `Environment.ProcessorCount` is a constructor parameter, required to be at least 1 as the runtime guarantees.
- Text.IsWhiteSpace: the code points of `char.IsWhiteSpace` are listed, but characters are Unicode scalar values, not UTF-16 code units. Surrogate pairs are not modelled.
- Text.Lower: `ToLowerInvariant` is modelled for the ASCII letters only. Other characters are left unchanged.
- The `long` counts are mathematical integers; overflow is not modelled.
- The lazy `IEnumerable`/`yield return` output is a finished sequence of tokens.
- ChunkedTokenizer.ChunkedWordTokenizer.Tokenize requires a buffer size of at least one. The source does not check it: a zero-length buffer reads nothing and yields no tokens, and a negative size throws.
- The input tables of `Merge` are values, so their being left unmodified holds by construction and is not stated.
- Punctuation stripping is expected by `PunctuationTests.cs`, but the code does not do it, so it is not modelled.
- `Program.cs` (argument checks, file existence, output ordering and printing), the benchmarks and the one-line interfaces are not part of this model.
