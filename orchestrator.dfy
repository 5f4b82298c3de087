/**
 The orchestrator: it tokenizes every source, counts the words of each one in
 a table of its own, and merges the tables. The sources are processed
 concurrently; the model runs the per-source step for each source once, in an
 arbitrary order (a schedule), and proves the result independent of it.
 */
module Orchestrator {
  import opened Text
  import opened Words
  import opened Aggregator

  /** How many times each token occurs: exactly the tokens are keys. */
  function Tally(tokens: seq<string>): Table {
    map w | w in multiset(tokens) :: multiset(tokens)[w]
  }

  /** Counting one more token: its count goes up by one, or it enters with count one. */
  lemma TallySnoc(tokens: seq<string>, w: string)
    ensures Tally(tokens + [w]) == Tally(tokens)[w := Get(Tally(tokens), w) + 1]
  {
    assert multiset(tokens + [w]) == multiset(tokens) + multiset{w};
  }

  /** Counting two token streams apart and adding the tables is counting them together. */
  lemma TallyConcat(a: seq<string>, b: seq<string>)
    ensures Tally(a + b) == Add(Tally(a), Tally(b))
  {
    assert multiset(a + b) == multiset(a) + multiset(b);
  }

  /** An empty token stream gives the empty table. */
  lemma TallyEmpty()
    ensures Tally([]) == map[]
  {
  }

  /**
   The per-source body of the parallel loop: a fresh table, incremented once per
   token. Its keys are the tokens and each count is a number of occurrences, so
   at least one.
   */
  method CountTokens(tokens: seq<string>) returns (localCounts: Table)
    ensures localCounts == Tally(tokens)
    ensures localCounts.Keys == set w | w in tokens
    ensures forall w :: w in localCounts ==> localCounts[w] == multiset(tokens)[w] >= 1
  {
    localCounts := map[];
    for i := 0 to |tokens|
      invariant localCounts == Tally(tokens[..i])
    {
      var word := tokens[i];
      assert tokens[..i + 1] == tokens[..i] + [word];
      TallySnoc(tokens[..i], word);
      if word in localCounts {
        localCounts := localCounts[word := localCounts[word] + 1];
      } else {
        localCounts := localCounts[word := 1];
      }
    }
    assert tokens[..|tokens|] == tokens;
  }

  /** A processing order: each source index exactly once. */
  predicate IsSchedule(schedule: seq<nat>, n: nat) {
    multiset(schedule) == multiset(Indices(n))
  }

  function Indices(n: nat): (r: seq<nat>)
    ensures |r| == n && forall i :: 0 <= i < n ==> r[i] == i
  {
    seq(n, i => i)
  }

  /** The tokens of all the sources, one source after the other. */
  function AllTokens(sources: seq<string>, tokenize: string -> seq<string>): seq<string> {
    if sources == [] then [] else tokenize(sources[0]) + AllTokens(sources[1..], tokenize)
  }

  /** The table of source `i`, empty for an index past the end. */
  function TableOf(sources: seq<string>, tokenize: string -> seq<string>, i: nat): Table {
    if i < |sources| then Tally(tokenize(sources[i])) else map[]
  }

  /** The tables in the order the schedule produces them. */
  function ScheduledTables(sources: seq<string>, tokenize: string -> seq<string>, schedule: seq<nat>): (r: seq<Table>)
    ensures |r| == |schedule|
    ensures forall j :: 0 <= j < |schedule| ==> r[j] == TableOf(sources, tokenize, schedule[j])
  {
    seq(|schedule|, j requires 0 <= j < |schedule| => TableOf(sources, tokenize, schedule[j]))
  }

  /** Reordering the schedule reorders the tables the same way. */
  lemma {:induction false} ScheduledTablesPermutation(sources: seq<string>, tokenize: string -> seq<string>, s: seq<nat>, t: seq<nat>)
    requires multiset(s) == multiset(t)
    ensures multiset(ScheduledTables(sources, tokenize, s)) == multiset(ScheduledTables(sources, tokenize, t))
    decreases |s|, 1
  {
    if s == [] {
      assert |t| == |multiset(t)|;
    } else {
      assert s[0] in multiset(t);
      var j :| 0 <= j < |t| && t[j] == s[0];
      ScheduledTablesPermutationAt(sources, tokenize, s, t, j);
    }
  }

  lemma {:induction false} ScheduledTablesPermutationAt(sources: seq<string>, tokenize: string -> seq<string>, s: seq<nat>, t: seq<nat>, j: nat)
    requires multiset(s) == multiset(t)
    requires s != [] && j < |t| && t[j] == s[0]
    ensures multiset(ScheduledTables(sources, tokenize, s)) == multiset(ScheduledTables(sources, tokenize, t))
    decreases |s|, 0
  {
    var t' := t[..j] + t[j + 1..];
    PermutationRest(s, t, j);
    ScheduledTablesPermutation(sources, tokenize, s[1..], t');
    ScheduledTablesCons(sources, tokenize, s);
    ScheduledTablesRemove(sources, tokenize, t, j);
    SameRemainder(multiset(ScheduledTables(sources, tokenize, s)), multiset(ScheduledTables(sources, tokenize, t)),
                  multiset(ScheduledTables(sources, tokenize, s[1..])), multiset(ScheduledTables(sources, tokenize, t')),
                  TableOf(sources, tokenize, s[0]));
  }

  /** The first index of the schedule contributes the first table. */
  lemma ScheduledTablesCons(sources: seq<string>, tokenize: string -> seq<string>, s: seq<nat>)
    requires s != []
    ensures multiset(ScheduledTables(sources, tokenize, s))
         == multiset(ScheduledTables(sources, tokenize, s[1..])) + multiset{TableOf(sources, tokenize, s[0])}
  {
    ScheduledTablesRemove(sources, tokenize, s, 0);
    assert s[..0] + s[1..] == s[1..];
  }

  /** Dropping one index from the schedule drops its table and nothing else. */
  lemma ScheduledTablesRemove(sources: seq<string>, tokenize: string -> seq<string>, t: seq<nat>, j: nat)
    requires j < |t|
    ensures multiset(ScheduledTables(sources, tokenize, t))
         == multiset(ScheduledTables(sources, tokenize, t[..j] + t[j + 1..])) + multiset{TableOf(sources, tokenize, t[j])}
  {
    var r := ScheduledTables(sources, tokenize, t);
    assert ScheduledTables(sources, tokenize, t[..j] + t[j + 1..]) == r[..j] + r[j + 1..];
    MultisetRemove(r, j);
  }

  /** Two multisets that are the same one plus the same element are equal. */
  lemma SameRemainder<T>(a: multiset<T>, b: multiset<T>, a': multiset<T>, b': multiset<T>, x: T)
    requires a == a' + multiset{x} && b == b' + multiset{x} && a' == b'
    ensures a == b
  {
  }

  lemma ScheduledTablesSplit(sources: seq<string>, tokenize: string -> seq<string>, s: seq<nat>, t: seq<nat>)
    ensures ScheduledTables(sources, tokenize, s + t) == ScheduledTables(sources, tokenize, s) + ScheduledTables(sources, tokenize, t)
  {
  }

  /** Merging the tables in source order counts all the tokens of all the sources. */
  lemma {:induction false} MergedInOrder(sources: seq<string>, tokenize: string -> seq<string>)
    ensures Merged(ScheduledTables(sources, tokenize, Indices(|sources|))) == Tally(AllTokens(sources, tokenize))
    decreases |sources|
  {
    if sources == [] {
      TallyEmpty();
    } else {
      var rest := sources[1..];
      MergedInOrder(rest, tokenize);
      var tables := ScheduledTables(sources, tokenize, Indices(|sources|));
      var restTables := ScheduledTables(rest, tokenize, Indices(|rest|));
      assert tables == [TableOf(sources, tokenize, 0)] + restTables;
      MergedConcat([TableOf(sources, tokenize, 0)], restTables);
      MergedSingle(TableOf(sources, tokenize, 0));
      TallyConcat(tokenize(sources[0]), AllTokens(rest, tokenize));
    }
  }

  /** Whatever the schedule, merging the tables counts all the tokens of all the sources. */
  lemma ScheduleIndependent(sources: seq<string>, tokenize: string -> seq<string>, schedule: seq<nat>)
    requires IsSchedule(schedule, |sources|)
    ensures Merged(ScheduledTables(sources, tokenize, schedule)) == Tally(AllTokens(sources, tokenize))
  {
    ScheduledTablesPermutation(sources, tokenize, schedule, Indices(|sources|));
    MergedPermutation(ScheduledTables(sources, tokenize, schedule), ScheduledTables(sources, tokenize, Indices(|sources|)));
    MergedInOrder(sources, tokenize);
  }

  /** What `Process` ends in: the merged counts, or the `ArgumentOutOfRangeException`
      that setting `MaxDegreeOfParallelism` to 0 or to a value below -1 throws. */
  datatype Outcome = Counts(counts: Table) | ArgumentOutOfRange

  /** The values `ParallelOptions.MaxDegreeOfParallelism` accepts: -1 (no limit) or a positive count. */
  predicate ValidDegree(degree: int) {
    degree == -1 || degree >= 1
  }

  class WordCountOrchestrator {
    /** The tokenizer every source goes through. */
    const tokenize: string -> seq<string>
    const maxDegreeOfParallelism: int

    /** `-1`, the default, asks for as many workers as there are processors. */
    constructor (tokenize: string -> seq<string>, processorCount: nat, maxDegreeOfParallelism: int := -1)
      requires processorCount >= 1
      ensures this.tokenize == tokenize
      ensures this.maxDegreeOfParallelism == if maxDegreeOfParallelism == -1 then processorCount else maxDegreeOfParallelism
    {
      this.tokenize := tokenize;
      this.maxDegreeOfParallelism := if maxDegreeOfParallelism == -1 then processorCount else maxDegreeOfParallelism;
    }

    /**
     `Process`: the parallel options are set first, which throws for an invalid
     degree of parallelism; otherwise one table per source, collected in the order
     given by `schedule` (the order in which the parallel loop completes them), then merged.
     */
    method Process(sources: seq<string>, schedule: seq<nat>) returns (result: Outcome)
      requires IsSchedule(schedule, |sources|)
      ensures !ValidDegree(maxDegreeOfParallelism) ==> result == ArgumentOutOfRange
      ensures ValidDegree(maxDegreeOfParallelism) ==> result == Counts(Tally(AllTokens(sources, tokenize)))
    {
      if !ValidDegree(maxDegreeOfParallelism) {
        return ArgumentOutOfRange;
      }
      var allCounts: seq<Table> := [];
      for j := 0 to |schedule|
        invariant allCounts == ScheduledTables(sources, tokenize, schedule[..j])
      {
        var i := schedule[j];
        assert i in multiset(Indices(|sources|));
        var localCounts := CountTokens(tokenize(sources[i]));
        assert schedule[..j + 1] == schedule[..j] + [i];
        ScheduledTablesSplit(sources, tokenize, schedule[..j], [i]);
        allCounts := allCounts + [localCounts];
      }
      assert schedule[..|schedule|] == schedule;
      var merged := Merge(allCounts);
      ScheduleIndependent(sources, tokenize, schedule);
      result := Counts(merged);
    }
  }

  /** An orchestrator built without a degree of parallelism uses the processor count,
      which is always accepted: it never throws and reports the total counts. */
  method DefaultOrchestrator(tokenize: string -> seq<string>, processorCount: nat, sources: seq<string>, schedule: seq<nat>)
    returns (result: Outcome)
    requires processorCount >= 1
    requires IsSchedule(schedule, |sources|)
    ensures result == Counts(Tally(AllTokens(sources, tokenize)))
  {
    var orchestrator := new WordCountOrchestrator(tokenize, processorCount);
    result := orchestrator.Process(sources, schedule);
  }

  /** Sources that are empty or hold only whitespace contribute no counts; in particular
      no sources, or only empty ones, give the empty table. */
  lemma {:induction false} BlankSources(sources: seq<string>)
    requires forall i :: 0 <= i < |sources| ==> IsNullOrWhiteSpace(sources[i])
    ensures Tally(AllTokens(sources, Tokens)) == map[]
    decreases |sources|
  {
    if sources != [] {
      BlankSources(sources[1..]);
      TokensOfBlank(sources[0]);
      assert AllTokens(sources, Tokens) == AllTokens(sources[1..], Tokens);
    }
  }

  lemma {:induction false} AllTokensConcat(a: seq<string>, b: seq<string>, tokenize: string -> seq<string>)
    ensures AllTokens(a + b, tokenize) == AllTokens(a, tokenize) + AllTokens(b, tokenize)
    decreases |a|
  {
    if a == [] {
      assert a + b == b;
    } else {
      assert (a + b)[1..] == a[1..] + b;
      AllTokensConcat(a[1..], b, tokenize);
    }
  }

  /** A blank source among others changes no count. */
  lemma BlankSourceIgnored(before: seq<string>, blank: string, after: seq<string>)
    requires IsNullOrWhiteSpace(blank)
    ensures Tally(AllTokens(before + [blank] + after, Tokens)) == Tally(AllTokens(before + after, Tokens))
  {
    AllTokensConcat(before + [blank], after, Tokens);
    AllTokensConcat(before, [blank], Tokens);
    AllTokensConcat(before, after, Tokens);
    AllTokensSingle(blank, Tokens);
    TokensOfBlank(blank);
    assert AllTokens(before, Tokens) + [] == AllTokens(before, Tokens);
  }

  /** Whatever the schedule, each source's table is collected exactly once. */
  lemma OneTablePerSource(sources: seq<string>, tokenize: string -> seq<string>, schedule: seq<nat>)
    requires IsSchedule(schedule, |sources|)
    ensures multiset(ScheduledTables(sources, tokenize, schedule))
         == multiset(seq(|sources|, i requires 0 <= i < |sources| => Tally(tokenize(sources[i]))))
  {
    ScheduledTablesPermutation(sources, tokenize, schedule, Indices(|sources|));
    assert ScheduledTables(sources, tokenize, Indices(|sources|))
        == seq(|sources|, i requires 0 <= i < |sources| => Tally(tokenize(sources[i])));
  }

  /** Every count the orchestrator reports is the number of occurrences of the word
      among all the tokens, and the words reported are exactly the tokens. */
  lemma CountsAreOccurrences(sources: seq<string>, tokenize: string -> seq<string>)
    ensures var r := Tally(AllTokens(sources, tokenize));
      && r.Keys == set w | w in AllTokens(sources, tokenize)
      && forall w :: w in r ==> r[w] == multiset(AllTokens(sources, tokenize))[w] >= 1
  {
  }

  /** Words that differ only in case are one word: "Hello HELLO hello" counts `hello` three times. */
  lemma CaseInsensitiveExample()
    ensures Tally(AllTokens(["Hello HELLO hello"], Tokens)) == map["hello" := 3]
  {
    AllTokensSingle("Hello HELLO hello", Tokens);
    HelloTokens();
    TallyOfRepeat("hello");
  }

  lemma AllTokensSingle(source: string, tokenize: string -> seq<string>)
    ensures AllTokens([source], tokenize) == tokenize(source)
  {
    assert [source][1..] == [];
  }

  lemma TallyOfRepeat(w: string)
    ensures Tally([w, w, w]) == map[w := 3]
  {
    assert multiset([w, w, w]) == multiset{w, w, w};
  }

  lemma HelloTokens()
    ensures Tokens("Hello HELLO hello") == ["hello", "hello", "hello"]
  {
    var words := ["Hello", "HELLO", "hello"];
    HelloJoin();
    TokensOfJoin(words, " ");
    HelloLower();
  }

  lemma HelloJoin()
    ensures var words := ["Hello", "HELLO", "hello"];
      && (forall i :: 0 <= i < |words| ==> words[i] != [] && NoWhitespace(words[i]))
      && IsNullOrWhiteSpace(" ")
      && JoinWith(words, " ") == "Hello HELLO hello"
  {
    var words := ["Hello", "HELLO", "hello"];
    assert NoWhitespace(words[0]) && NoWhitespace(words[1]) && NoWhitespace(words[2]);
    assert words[1..] == ["HELLO", "hello"];
    assert words[1..][1..] == ["hello"];
    assert JoinWith(words[1..][1..], " ") == "hello";
    assert JoinWith(words[1..], " ") == "HELLO" + " " + "hello";
    assert JoinWith(words, " ") == "Hello" + " " + ("HELLO" + " " + "hello");
  }

  lemma HelloLower()
    ensures LowerString("Hello") == LowerString("HELLO") == LowerString("hello") == "hello"
  {
    assert LowerString("Hello") == "hello";
    assert LowerString("HELLO") == "hello";
    assert LowerString("hello") == "hello";
  }
}
