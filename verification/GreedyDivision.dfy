/** The division into suites is the only one in which no suite could take the test behind it. */
module GreedyDivision {
  import opened Sequences
  import opened SuiteSplit

  ghost predicate IsFull(tests: map<string, TestData>, part: seq<string>, next: seq<string>, limit: real) {
    next != [] && Total(tests, part) + Weight(tests, next[0]) > limit
  }

  /** Every suite meets the limit if it can, and the first test of the next one would have been too much. */
  ghost predicate Greedy(tests: map<string, TestData>, parts: seq<seq<string>>, limit: real) {
    && (forall k :: 0 <= k < |parts| ==> FitsOrSingle(tests, parts[k], limit))
    && (forall k :: 0 < k < |parts| ==> IsFull(tests, parts[k - 1], parts[k], limit))
  }

  lemma GreedyTail(tests: map<string, TestData>, parts: seq<seq<string>>, limit: real)
    requires parts != [] && Greedy(tests, parts, limit)
    ensures Greedy(tests, parts[1..], limit)
  {
    hide FitsOrSingle, IsFull;
    var rest := parts[1..];
    forall k | 0 < k < |rest|
      ensures IsFull(tests, rest[k - 1], rest[k], limit)
    {
      assert IsFull(tests, parts[k], parts[k + 1], limit);
    }
  }

  lemma GreedyCons(tests: map<string, TestData>, part: seq<string>, rest: seq<seq<string>>, limit: real)
    requires FitsOrSingle(tests, part, limit) && Greedy(tests, rest, limit)
    requires rest != [] ==> IsFull(tests, part, rest[0], limit)
    ensures Greedy(tests, [part] + rest, limit)
  {
    hide FitsOrSingle, IsFull;
    var parts := [part] + rest;
    forall k | 0 < k < |parts|
      ensures IsFull(tests, parts[k - 1], parts[k], limit)
    {
      if k > 1 {
        assert IsFull(tests, rest[k - 2], rest[k - 1], limit);
      }
    }
  }

  lemma {:induction false} SplitIsGreedy(tests: map<string, TestData>, names: seq<string>, limit: real)
    ensures Greedy(tests, Split(tests, names, limit), limit)
    decreases |names|
  {
    if names != [] {
      var k := FirstLength(tests, names, limit);
      FirstIsMaximal(tests, names, limit);
      assert FitsOrSingle(tests, names[..k], limit);
      hide FirstLength, FitsOrSingle, Greedy, Split, Total;
      SplitIs(tests, names, limit);
      SplitIsGreedy(tests, names[k..], limit);
      if k < |names| {
        SplitIs(tests, names[k..], limit);
        assert IsFull(tests, names[..k], Split(tests, names[k..], limit)[0], limit);
      } else {
        SplitNothing(tests, names[k..], limit);
      }
      GreedyCons(tests, names[..k], Split(tests, names[k..], limit), limit);
    }
  }

  lemma SplitNothing(tests: map<string, TestData>, names: seq<string>, limit: real)
    requires names == []
    ensures Split(tests, names, limit) == []
  {
  }

  /** A beginning of what fits fits. */
  lemma PrefixFits(tests: map<string, TestData>, names: seq<string>, limit: real, q: nat)
    requires names != [] && NonNegative(tests, names) && 1 < q <= FirstLength(tests, names, limit)
    ensures Total(tests, names[..q]) <= limit
  {
    hide FirstLength, NonNegative;
    var k := FirstLength(tests, names, limit);
    FirstIsMaximal(tests, names, limit);
    NonNegativeSlice(tests, names, q, k);
    hide *;
    TotalNonNegative(tests, names[q..k]);
    TotalConcat(tests, names[..q], names[q..k]);
    assert names[..q] + names[q..k] == names[..k];
  }

  /** A first suite that cannot take the next test is not shorter than that of the division. */
  lemma FullIsNotShorter(tests: map<string, TestData>, names: seq<string>, limit: real, p: nat)
    requires names != [] && NonNegative(tests, names) && 0 < p <= |names|
    requires p < |names| ==> Total(tests, names[..p]) + Weight(tests, names[p]) > limit
    ensures FirstLength(tests, names, limit) <= p
  {
    hide FirstLength, NonNegative, Total, Weight;
    if p < FirstLength(tests, names, limit) {
      assert names[..p] + [names[p]] == names[..p + 1];
      TotalConcat(tests, names[..p], [names[p]]);
      TotalOne(tests, names[p]);
      PrefixFits(tests, names, limit, p + 1);
    }
  }

  lemma GreedyFirst(tests: map<string, TestData>, names: seq<string>, limit: real, parts: seq<seq<string>>)
    requires parts != [] && Flatten(parts) == names && NonNegative(tests, names) && Greedy(tests, parts, limit)
    ensures names != [] && |parts[0]| == FirstLength(tests, names, limit)
    ensures names[..|parts[0]|] == parts[0] && names[|parts[0]|..] == Flatten(parts[1..])
  {
    var p := |parts[0]|;
    FlattenHead(parts);
    assert names[..p] == parts[0] && names[p..] == Flatten(parts[1..]);
    assert FitsOrSingle(tests, parts[0], limit);
    hide FirstLength, NonNegative, Total, Weight;
    if Total(tests, parts[0]) <= limit {
      FirstIsLongest(tests, names, limit, p);
    }
    if |parts| > 1 {
      assert IsFull(tests, parts[0], parts[1], limit);
      FlattenHead(parts[1..]);
      assert names[p..][0] == parts[1][0];
    } else {
      assert Flatten(parts[1..]) == [];
    }
    FullIsNotShorter(tests, names, limit, p);
  }

  /** Without negative runtimes, every greedy division of a list is the one that the loop makes. */
  lemma {:induction false} GreedyIsUnique(tests: map<string, TestData>, names: seq<string>, limit: real,
                                          parts: seq<seq<string>>)
    requires Flatten(parts) == names && NonNegative(tests, names) && Greedy(tests, parts, limit)
    ensures parts == Split(tests, names, limit)
    decreases |parts|
  {
    if parts == [] {
      SplitNothing(tests, names, limit);
    } else {
      hide FirstLength, Greedy, Split, Flatten;
      var k := |parts[0]|;
      GreedyFirst(tests, names, limit, parts);
      SplitIs(tests, names, limit);
      GreedyTail(tests, parts, limit);
      NonNegativeSlice(tests, names, k, |names|);
      assert names[k..|names|] == names[k..];
      GreedyIsUnique(tests, names[k..], limit, parts[1..]);
      assert parts == [parts[0]] + parts[1..];
    }
  }
}
