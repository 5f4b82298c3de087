/**
 Merging word-count tables. A table maps each word to its count; `Merge` adds
 the tables up key by key: every key of any input is in the result, with the
 sum of its counts over the tables that hold it.
 */
module Aggregator {

  /** A `Dictionary<string, long>` of word counts. */
  type Table = map<string, int>

  /** The count of `k` in `t`, zero when `t` does not hold it. */
  function Get(t: Table, k: string): int {
    if k in t then t[k] else 0
  }

  /** The keys of all the tables. */
  function KeysOf(ts: seq<Table>): set<string> {
    if ts == [] then {} else ts[0].Keys + KeysOf(ts[1..])
  }

  /** The sum of the counts of `k` over all the tables. */
  function Total(ts: seq<Table>, k: string): int {
    if ts == [] then 0 else Get(ts[0], k) + Total(ts[1..], k)
  }

  /** What merging `ts` yields: each key of any table, with its total count. */
  function Merged(ts: seq<Table>): Table {
    map k | k in KeysOf(ts) :: Total(ts, k)
  }

  /** The pointwise sum of two tables. */
  function Add(a: Table, b: Table): (r: Table)
    ensures r.Keys == a.Keys + b.Keys
    ensures forall k :: Get(r, k) == Get(a, k) + Get(b, k)
  {
    map k | k in a.Keys + b.Keys :: Get(a, k) + Get(b, k)
  }

  /** A key belongs to the merged keys exactly when some table holds it. */
  lemma {:induction false} KeysOfMember(ts: seq<Table>, k: string)
    ensures k in KeysOf(ts) <==> exists i :: 0 <= i < |ts| && k in ts[i]
    decreases |ts|
  {
    if ts != [] {
      KeysOfMember(ts[1..], k);
      if k in KeysOf(ts[1..]) {
        var i :| 0 <= i < |ts[1..]| && k in ts[1..][i];
        assert k in ts[i + 1];
      }
      if exists i :: 0 <= i < |ts| && k in ts[i] {
        var i :| 0 <= i < |ts| && k in ts[i];
        if i > 0 {
          assert k in ts[1..][i - 1];
        }
      }
    }
  }

  lemma {:induction false} KeysOfConcat(a: seq<Table>, b: seq<Table>)
    ensures KeysOf(a + b) == KeysOf(a) + KeysOf(b)
    decreases |a|
  {
    if a == [] {
      assert a + b == b;
    } else {
      assert (a + b)[1..] == a[1..] + b;
      KeysOfConcat(a[1..], b);
    }
  }

  lemma {:induction false} TotalConcat(a: seq<Table>, b: seq<Table>, k: string)
    ensures Total(a + b, k) == Total(a, k) + Total(b, k)
    decreases |a|
  {
    if a == [] {
      assert a + b == b;
    } else {
      assert (a + b)[1..] == a[1..] + b;
      TotalConcat(a[1..], b, k);
    }
  }

  /** Merging a concatenation is adding up the merges of its parts. */
  lemma MergedConcat(a: seq<Table>, b: seq<Table>)
    ensures Merged(a + b) == Add(Merged(a), Merged(b))
  {
    KeysOfConcat(a, b);
    forall k | k in KeysOf(a + b)
      ensures Total(a + b, k) == Get(Merged(a), k) + Get(Merged(b), k)
    {
      TotalConcat(a, b, k);
      TotalOutside(a, k);
      TotalOutside(b, k);
    }
  }

  /** A key that no table holds has total zero. */
  lemma {:induction false} TotalOutside(ts: seq<Table>, k: string)
    ensures k !in KeysOf(ts) ==> Total(ts, k) == 0
    decreases |ts|
  {
    if ts != [] {
      TotalOutside(ts[1..], k);
    }
  }

  /** The step of the outer loop: one more table is added to what is merged so far. */
  lemma MergedSnoc(ts: seq<Table>, t: Table)
    ensures Merged(ts + [t]) == Add(Merged(ts), t)
  {
    MergedConcat(ts, [t]);
    MergedSingle(t);
  }

  /** A single table merges to itself. */
  lemma MergedSingle(t: Table)
    ensures Merged([t]) == t
  {
    assert [t][1..] == [];
    assert KeysOf([t]) == t.Keys;
    forall k | k in t
      ensures Total([t], k) == t[k]
    {
    }
  }

  /** No tables, or only empty ones, merge to the empty table. */
  lemma {:induction false} MergedOfEmpty(ts: seq<Table>)
    requires forall i :: 0 <= i < |ts| ==> ts[i] == map[]
    ensures Merged(ts) == map[]
    decreases |ts|
  {
    if ts != [] {
      MergedOfEmpty(ts[1..]);
      assert ts == [ts[0]] + ts[1..];
      MergedConcat([ts[0]], ts[1..]);
      MergedSingle(ts[0]);
    }
  }

  /** An empty table anywhere among the inputs changes nothing. */
  lemma MergedWithEmpty(a: seq<Table>, b: seq<Table>)
    ensures Merged(a + [map[]] + b) == Merged(a + b)
  {
    MergedConcat(a + [map[]], b);
    MergedSnoc(a, map[]);
    MergedConcat(a, b);
  }

  /** Removing the table at `j` takes its counts off the total. */
  lemma TotalRemove(ts: seq<Table>, j: nat, k: string)
    requires j < |ts|
    ensures Total(ts, k) == Get(ts[j], k) + Total(ts[..j] + ts[j + 1..], k)
  {
    assert ts == ts[..j] + ([ts[j]] + ts[j + 1..]);
    TotalConcat(ts[..j], [ts[j]] + ts[j + 1..], k);
    TotalConcat([ts[j]], ts[j + 1..], k);
    TotalConcat(ts[..j], ts[j + 1..], k);
    assert [ts[j]][1..] == [];
  }

  /** Removing one element takes one occurrence of it off the multiset. */
  lemma MultisetRemove<T>(s: seq<T>, j: nat)
    requires j < |s|
    ensures multiset(s[..j] + s[j + 1..]) == multiset(s) - multiset{s[j]}
  {
    assert s == s[..j] + [s[j]] + s[j + 1..];
  }

  /** Taking the same element out of two permutations of each other leaves permutations. */
  lemma PermutationRest<T>(a: seq<T>, b: seq<T>, j: nat)
    requires multiset(a) == multiset(b)
    requires a != [] && j < |b| && b[j] == a[0]
    ensures multiset(a[1..]) == multiset(b[..j] + b[j + 1..])
  {
    MultisetRemove(a, 0);
    MultisetRemove(b, j);
    calc {
      multiset(a[1..]);
      { assert a[..0] + a[1..] == a[1..]; }
      multiset(a[..0] + a[1..]);
      multiset(a) - multiset{a[0]};
      multiset(b) - multiset{b[j]};
      multiset(b[..j] + b[j + 1..]);
    }
  }

  /** The total of a key does not depend on the order of the tables. */
  lemma {:induction false} TotalPermutation(a: seq<Table>, b: seq<Table>, k: string)
    requires multiset(a) == multiset(b)
    ensures Total(a, k) == Total(b, k)
    decreases |a|, 1
  {
    if a == [] {
      assert |b| == |multiset(b)|;
    } else {
      assert a[0] in multiset(b);
      var j :| 0 <= j < |b| && b[j] == a[0];
      TotalPermutationAt(a, b, j, k);
    }
  }

  /** The inductive step: the first table of `a` sits at `j` in `b`. */
  lemma {:induction false} TotalPermutationAt(a: seq<Table>, b: seq<Table>, j: nat, k: string)
    requires multiset(a) == multiset(b)
    requires a != [] && j < |b| && b[j] == a[0]
    ensures Total(a, k) == Total(b, k)
    decreases |a|, 0
  {
    var b' := b[..j] + b[j + 1..];
    PermutationRest(a, b, j);
    TotalPermutation(a[1..], b', k);
    TotalRemove(b, j, k);
  }

  /** Merging is invariant under any reordering of the tables. */
  lemma MergedPermutation(a: seq<Table>, b: seq<Table>)
    requires multiset(a) == multiset(b)
    ensures Merged(a) == Merged(b)
  {
    forall k
      ensures k in KeysOf(a) <==> k in KeysOf(b)
    {
      KeysOfMember(a, k);
      KeysOfMember(b, k);
      if k in KeysOf(a) {
        var i :| 0 <= i < |a| && k in a[i];
        assert a[i] in multiset(b);
      }
      if k in KeysOf(b) {
        var i :| 0 <= i < |b| && k in b[i];
        assert b[i] in multiset(a);
      }
    }
    forall k | k in KeysOf(a)
      ensures Total(a, k) == Total(b, k)
    {
      TotalPermutation(a, b, k);
    }
  }

  /** Overlapping keys are summed, the others carried over:
      {hello: 2, world: 1} and {hello: 3, foo: 1} merge to {hello: 5, world: 1, foo: 1}. */
  lemma OverlapExample()
    ensures Merged([map["hello" := 2, "world" := 1], map["hello" := 3, "foo" := 1]])
         == map["hello" := 5, "world" := 1, "foo" := 1]
  {
    var a, b := map["hello" := 2, "world" := 1], map["hello" := 3, "foo" := 1];
    assert [a, b] == [a] + [b];
    MergedSnoc([a], b);
    MergedSingle(a);
    var r := Add(a, b);
    assert r.Keys == {"hello", "world", "foo"};
    assert r["hello"] == 5 && r["world"] == 1 && r["foo"] == 1;
  }

  /**
   `DictionaryAggregator.Merge`. The tables are enumerated in the order given;
   within a table the entries come in an unspecified order, modelled by picking
   any key not yet visited.
   */
  method Merge(counts: seq<Table>) returns (result: Table)
    ensures result == Merged(counts)
  {
    result := map[];
    for i := 0 to |counts|
      invariant result == Merged(counts[..i])
    {
      var dictionary := counts[i];
      ghost var before := result;
      var pending := dictionary.Keys;
      while pending != {}
        invariant pending <= dictionary.Keys
        invariant result.Keys == before.Keys + (dictionary.Keys - pending)
        invariant forall k :: Get(result, k) == Get(before, k) + (if k in pending then 0 else Get(dictionary, k))
        decreases pending
      {
        var key :| key in pending;
        if key in result {
          result := result[key := result[key] + dictionary[key]];
        } else {
          result := result[key := dictionary[key]];
        }
        pending := pending - {key};
      }
      assert result == Add(before, dictionary);
      assert counts[..i + 1] == counts[..i] + [dictionary];
      MergedSnoc(counts[..i], dictionary);
    }
    assert counts[..|counts|] == counts;
  }
}
