/**
  How a list of tests is divided into suites, and how good that division is.

  Runtimes are real numbers; a test's weight is its largest average runtime on any variant.
 */
module SuiteSplit {
  import opened Sequences

  const MAX_RUNTIME_KEY := "max_runtime"

  /** The average runtime of a test per variant, and their maximum under MAX_RUNTIME_KEY. */
  type TestData = map<string, real>

  function Get(m: map<string, real>, key: string): real {
    if key in m then m[key] else 0.0
  }

  function Weight(tests: map<string, TestData>, name: string): real {
    if name in tests then Get(tests[name], MAX_RUNTIME_KEY) else 0.0
  }

  function Total(tests: map<string, TestData>, names: seq<string>): real {
    if names == [] then 0.0 else Total(tests, names[..|names| - 1]) + Weight(tests, names[|names| - 1])
  }

  // ----- The division -----

  /** How many of the leading tests still fit behind a runtime of `used`. */
  function Fit(tests: map<string, TestData>, used: real, names: seq<string>, limit: real): (k: nat)
    ensures k <= |names|
    decreases |names|
  {
    if names == [] || used + Weight(tests, names[0]) > limit then 0
    else 1 + Fit(tests, used + Weight(tests, names[0]), names[1..], limit)
  }

  /** A suite takes its first test whatever that weighs, and then as many as fit. */
  function FirstLength(tests: map<string, TestData>, names: seq<string>, limit: real): (k: nat)
    requires names != []
    ensures 0 < k <= |names|
  {
    1 + Fit(tests, Weight(tests, names[0]), names[1..], limit)
  }

  function Split(tests: map<string, TestData>, names: seq<string>, limit: real): seq<seq<string>>
    decreases |names|
  {
    if names == [] then []
    else
      var k := FirstLength(tests, names, limit);
      [names[..k]] + Split(tests, names[k..], limit)
  }

  ghost predicate NonNegative(tests: map<string, TestData>, names: seq<string>) {
    forall i :: 0 <= i < |names| ==> Weight(tests, names[i]) >= 0.0
  }

  lemma NonNegativeSlice(tests: map<string, TestData>, names: seq<string>, lo: nat, hi: nat)
    requires NonNegative(tests, names) && lo <= hi <= |names|
    ensures NonNegative(tests, names[lo..hi])
  {
  }

  // ----- Sums -----

  lemma {:induction false} TotalConcat(tests: map<string, TestData>, a: seq<string>, b: seq<string>)
    ensures Total(tests, a + b) == Total(tests, a) + Total(tests, b)
  {
    if b == [] {
      assert a + b == a;
    } else {
      var c, init := a + b, b[..|b| - 1];
      TotalConcat(tests, a, init);
      assert c[..|c| - 1] == a + init && c[|c| - 1] == b[|b| - 1];
    }
  }

  lemma TotalNone(tests: map<string, TestData>, names: seq<string>)
    ensures names == [] ==> Total(tests, names) == 0.0
  {
  }

  lemma TotalOne(tests: map<string, TestData>, name: string)
    ensures Total(tests, [name]) == Weight(tests, name)
  {
    TotalNone(tests, [name][..0]);
  }

  lemma TotalHead(tests: map<string, TestData>, names: seq<string>)
    requires names != []
    ensures Total(tests, names) == Weight(tests, names[0]) + Total(tests, names[1..])
  {
    TotalConcat(tests, [names[0]], names[1..]);
    TotalOne(tests, names[0]);
    assert [names[0]] + names[1..] == names;
  }

  lemma {:induction false} TotalNonNegative(tests: map<string, TestData>, names: seq<string>)
    requires NonNegative(tests, names)
    ensures Total(tests, names) >= 0.0
  {
    if names != [] {
      TotalNonNegative(tests, names[..|names| - 1]);
    }
  }

  // ----- What `Fit` measures -----

  /** What fits stays within the limit, and one more test would not. */
  lemma {:induction false} FitIsMaximal(tests: map<string, TestData>, used: real, names: seq<string>, limit: real)
    ensures var k := Fit(tests, used, names, limit);
            && (k > 0 ==> used + Total(tests, names[..k]) <= limit)
            && (k < |names| ==> used + Total(tests, names[..k]) + Weight(tests, names[k]) > limit)
    decreases |names|
  {
    var k := Fit(tests, used, names, limit);
    if k > 0 {
      var used' := used + Weight(tests, names[0]);
      FitIsMaximal(tests, used', names[1..], limit);
      TotalHead(tests, names[..k]);
      assert names[..k][1..] == names[1..][..k - 1];
      TotalNone(tests, names[1..][..k - 1]);
    } else {
      TotalNone(tests, names[..k]);
    }
  }

  /** Any prefix that stays within the limit is no longer than what fits. */
  lemma {:induction false} FitIsLongest(tests: map<string, TestData>, used: real, names: seq<string>, limit: real, p: nat)
    requires p <= |names| && NonNegative(tests, names) && used + Total(tests, names[..p]) <= limit
    ensures p <= Fit(tests, used, names, limit)
    decreases |names|
  {
    if p > 0 {
      var rest := names[1..];
      TotalHead(tests, names[..p]);
      assert names[..p][1..] == rest[..p - 1];
      TotalNonNegative(tests, rest[..p - 1]);
      FitIsLongest(tests, used + Weight(tests, names[0]), rest, limit, p - 1);
    }
  }

  lemma FirstIsLongest(tests: map<string, TestData>, names: seq<string>, limit: real, p: nat)
    requires names != [] && p <= |names| && NonNegative(tests, names) && Total(tests, names[..p]) <= limit
    ensures p <= FirstLength(tests, names, limit)
  {
    if p > 0 {
      TotalHead(tests, names[..p]);
      assert names[..p][1..] == names[1..][..p - 1];
      FitIsLongest(tests, Weight(tests, names[0]), names[1..], limit, p - 1);
    }
  }

  /** Every suite but an oversized single test is within the limit, and the test behind it did not fit. */
  lemma FirstIsMaximal(tests: map<string, TestData>, names: seq<string>, limit: real)
    requires names != []
    ensures var k := FirstLength(tests, names, limit);
            && (Total(tests, names[..k]) <= limit || (k == 1 && Weight(tests, names[0]) > limit))
            && (k < |names| ==> Total(tests, names[..k]) + Weight(tests, names[k]) > limit)
  {
    var w, rest := Weight(tests, names[0]), names[1..];
    FitIsMaximal(tests, w, rest, limit);
    var k := FirstLength(tests, names, limit);
    TotalHead(tests, names[..k]);
    assert names[..k][1..] == rest[..k - 1];
    TotalNone(tests, rest[..k - 1]);
  }

  // ----- The division keeps the tests and the limit -----

  /** Within the limit, or a single test that is over the limit by itself. */
  ghost predicate FitsOrSingle(tests: map<string, TestData>, part: seq<string>, limit: real) {
    && part != []
    && (Total(tests, part) <= limit || (|part| == 1 && Weight(tests, part[0]) > limit))
  }

  lemma SplitIs(tests: map<string, TestData>, names: seq<string>, limit: real)
    requires names != []
    ensures var k := FirstLength(tests, names, limit);
            Split(tests, names, limit) == [names[..k]] + Split(tests, names[k..], limit)
  {
    hide FirstLength;
  }

  lemma {:induction false} SplitKeepsTests(tests: map<string, TestData>, names: seq<string>, limit: real)
    ensures Flatten(Split(tests, names, limit)) == names
    decreases |names|
  {
    if names != [] {
      hide FirstLength, Split;
      var k := FirstLength(tests, names, limit);
      SplitIs(tests, names, limit);
      SplitKeepsTests(tests, names[k..], limit);
      FlattenCons(names[..k], Split(tests, names[k..], limit));
      assert names[..k] + names[k..] == names;
    }
  }

  lemma {:induction false} SplitKeepsLimit(tests: map<string, TestData>, names: seq<string>, limit: real)
    ensures forall part :: part in Split(tests, names, limit) ==> FitsOrSingle(tests, part, limit)
    decreases |names|
  {
    if names != [] {
      var k := FirstLength(tests, names, limit);
      FirstIsMaximal(tests, names, limit);
      assert FitsOrSingle(tests, names[..k], limit);
      hide FirstLength, FitsOrSingle, Split;
      SplitIs(tests, names, limit);
      SplitKeepsLimit(tests, names[k..], limit);
    }
  }

  /** Nothing is lost, added or reordered, no suite is empty, and every suite meets the limit if it can. */
  lemma SplitKeepsTestsAndLimit(tests: map<string, TestData>, names: seq<string>, limit: real)
    ensures var parts := Split(tests, names, limit);
            Flatten(parts) == names && forall k :: 0 <= k < |parts| ==> FitsOrSingle(tests, parts[k], limit)
  {
    hide Split, FitsOrSingle;
    SplitKeepsTests(tests, names, limit);
    SplitKeepsLimit(tests, names, limit);
  }

  // ----- The division is the smallest in order -----

  lemma SuffixReachesAsFar(tests: map<string, TestData>, names: seq<string>, limit: real, d: nat)
    requires names != [] && 0 < d < FirstLength(tests, names, limit) && NonNegative(tests, names)
    ensures FirstLength(tests, names, limit) <= d + FirstLength(tests, names[d..], limit)
  {
    var k := FirstLength(tests, names, limit);
    FirstIsMaximal(tests, names, limit);
    var tail := names[d..];
    assert names[..k] == names[..d] + tail[..k - d];
    TotalConcat(tests, names[..d], tail[..k - d]);
    TotalNonNegative(tests, names[..d]);
    FirstIsLongest(tests, tail, limit, k - d);
  }

  lemma SplitHead(tests: map<string, TestData>, names: seq<string>, limit: real)
    requires names != []
    ensures |Split(tests, names, limit)| == 1 + |Split(tests, names[FirstLength(tests, names, limit)..], limit)|
  {
  }

  /** Dividing a shorter end of the list takes no more suites. */
  lemma {:induction false} SplitOfSuffix(tests: map<string, TestData>, names: seq<string>, limit: real, d: nat)
    requires d <= |names| && NonNegative(tests, names)
    ensures |Split(tests, names[d..], limit)| <= |Split(tests, names, limit)|
    decreases |names|
  {
    hide NonNegative, FirstLength;
    if d == |names| {
      assert names[d..] == [];
    } else if d > 0 {
      var k := FirstLength(tests, names, limit);
      var tail := names[d..];
      var j := FirstLength(tests, tail, limit);
      NonNegativeSlice(tests, names, k, |names|);
      assert names[k..|names|] == names[k..];
      SplitHead(tests, names, limit);
      SplitHead(tests, tail, limit);
      if d < k {
        SuffixReachesAsFar(tests, names, limit, d);
        hide *;
        SplitOfSuffix(tests, names[k..], limit, d + j - k);
        assert names[k..][d + j - k..] == tail[j..];
      } else {
        hide *;
        SplitOfSuffix(tests, names[k..], limit, d - k);
        assert names[k..][d - k..] == tail;
      }
    } else {
      assert names[d..] == names;
    }
  }

  /** No way of cutting the same list into parts within the limit uses fewer parts. */
  lemma {:induction false} SplitIsSmallestInOrder(tests: map<string, TestData>, names: seq<string>, limit: real,
                                                  parts: seq<seq<string>>)
    requires NonNegative(tests, names)
    requires Flatten(parts) == names
    requires forall k :: 0 <= k < |parts| ==> Total(tests, parts[k]) <= limit
    ensures |Split(tests, names, limit)| <= |parts|
    decreases |parts|
  {
    if names != [] {
      var p, rest := |parts[0]|, parts[1..];
      FlattenHead(parts);
      assert names[..p] == parts[0] && names[p..] == Flatten(rest);
      FirstIsLongest(tests, names, limit, p);
      SplitIsSmallestInOrder(tests, names[p..], limit, rest);
      var k := FirstLength(tests, names, limit);
      SplitOfSuffix(tests, names[p..], limit, k - p);
      assert names[p..][k - p..] == names[k..];
    }
  }

  // ----- The division against any packing -----

  /** The load of bin `b` when test `i` is put into bin `bins[i]`. */
  function BinLoad(tests: map<string, TestData>, names: seq<string>, bins: seq<nat>, b: nat): real
    requires |bins| == |names|
  {
    if names == [] then 0.0
    else
      var n := |names| - 1;
      BinLoad(tests, names[..n], bins[..n], b) + if bins[n] == b then Weight(tests, names[n]) else 0.0
  }

  /** The loads of bins `0..m` together. */
  function LoadBelow(tests: map<string, TestData>, names: seq<string>, bins: seq<nat>, m: nat): real
    requires |bins| == |names|
  {
    if m == 0 then 0.0 else LoadBelow(tests, names, bins, m - 1) + BinLoad(tests, names, bins, m - 1)
  }

  ghost predicate IsPacking(tests: map<string, TestData>, names: seq<string>, limit: real, m: nat, bins: seq<nat>) {
    && |bins| == |names|
    && (forall i :: 0 <= i < |bins| ==> bins[i] < m)
    && (forall b :: 0 <= b < m ==> BinLoad(tests, names, bins, b) <= limit)
  }

  lemma {:induction false} LoadBelowLast(tests: map<string, TestData>, names: seq<string>, bins: seq<nat>, m: nat)
    requires |bins| == |names| > 0
    ensures var n := |names| - 1;
            LoadBelow(tests, names, bins, m) ==
            LoadBelow(tests, names[..n], bins[..n], m) + if bins[n] < m then Weight(tests, names[n]) else 0.0
  {
    if m > 0 {
      LoadBelowLast(tests, names, bins, m - 1);
    }
  }

  lemma {:induction false} LoadBelowEmpty(tests: map<string, TestData>, m: nat)
    ensures LoadBelow(tests, [], [], m) == 0.0
  {
    if m > 0 {
      LoadBelowEmpty(tests, m - 1);
    }
  }

  lemma {:induction false} LoadsAddUp(tests: map<string, TestData>, names: seq<string>, bins: seq<nat>, m: nat)
    requires |bins| == |names| && forall i :: 0 <= i < |bins| ==> bins[i] < m
    ensures LoadBelow(tests, names, bins, m) == Total(tests, names)
  {
    if names == [] {
      LoadBelowEmpty(tests, m);
    } else {
      LoadBelowLast(tests, names, bins, m);
      LoadsAddUp(tests, names[..|names| - 1], bins[..|names| - 1], m);
    }
  }

  /** `m` times the limit. */
  function Capacity(m: nat, limit: real): real {
    if m == 0 then 0.0 else Capacity(m - 1, limit) + limit
  }

  lemma {:induction false} LoadBelowBounded(tests: map<string, TestData>, names: seq<string>, limit: real, bins: seq<nat>, m: nat)
    requires |bins| == |names| && forall b :: 0 <= b < m ==> BinLoad(tests, names, bins, b) <= limit
    ensures LoadBelow(tests, names, bins, m) <= Capacity(m, limit)
  {
    if m > 0 {
      LoadBelowBounded(tests, names, limit, bins, m - 1);
    }
  }

  /** Two neighbouring suites together are over the limit. */
  lemma PairOverflows(tests: map<string, TestData>, names: seq<string>, limit: real, k: nat, j: nat)
    requires NonNegative(tests, names) && names != []
    requires k == FirstLength(tests, names, limit) < |names| && j == FirstLength(tests, names[k..], limit)
    ensures Total(tests, names) > limit + Total(tests, names[k + j..])
  {
    hide Total, Weight, Fit, FirstLength, NonNegative;
    FirstIsMaximal(tests, names, limit);
    var tail, end := names[k..], names[k + j..];
    TotalHead(tests, tail[..j]);
    assert tail[..j][1..] == names[k + 1..k + j];
    NonNegativeSlice(tests, names, k + 1, k + j);
    TotalNonNegative(tests, names[k + 1..k + j]);
    assert names == names[..k] + tail && tail == tail[..j] + end;
    TotalConcat(tests, names[..k], tail);
    TotalConcat(tests, tail[..j], end);
  }

  /** So `2 * m` suites are over `m` limits. */
  lemma {:induction false} PairsOverflow(tests: map<string, TestData>, names: seq<string>, limit: real, m: nat)
    requires NonNegative(tests, names) && m > 0 && |Split(tests, names, limit)| >= 2 * m
    ensures Total(tests, names) > Capacity(m, limit)
    decreases m
  {
    hide Total, FirstLength, NonNegative;
    var k := FirstLength(tests, names, limit);
    SplitHead(tests, names, limit);
    var tail := names[k..];
    var j := FirstLength(tests, tail, limit);
    SplitHead(tests, tail, limit);
    PairOverflows(tests, names, limit, k, j);
    var end := names[k + j..];
    NonNegativeSlice(tests, names, k + j, |names|);
    assert names[k + j..|names|] == end;
    if m > 1 {
      assert tail[j..] == end;
      PairsOverflow(tests, end, limit, m - 1);
    } else {
      TotalNonNegative(tests, end);
      assert Capacity(1, limit) == Capacity(0, limit) + limit;
    }
  }

  /**
    If the tests can be packed into `m` bins of the limit in any way at all, the division uses at
    most `2 * m - 1` suites (and none for no bins).
   */
  lemma SplitWithinTwiceAnyPacking(tests: map<string, TestData>, names: seq<string>, limit: real, m: nat, bins: seq<nat>)
    requires NonNegative(tests, names) && IsPacking(tests, names, limit, m, bins)
    ensures |Split(tests, names, limit)| <= if m == 0 then 0 else 2 * m - 1
  {
    if names != [] {
      assert bins[0] < m;
      LoadsAddUp(tests, names, bins, m);
      LoadBelowBounded(tests, names, limit, bins, m);
      if |Split(tests, names, limit)| >= 2 * m {
        PairsOverflow(tests, names, limit, m);
      }
    }
  }
}
