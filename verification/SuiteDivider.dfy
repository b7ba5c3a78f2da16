/** The suite generator as it runs: suites that accumulate tests, and the loop that fills them. */
module SuiteDivider {
  import opened Sequences
  import opened SuiteSplit

  /** The runtime that `names` add up to on one variant. */
  function VariantTotal(tests: map<string, TestData>, names: seq<string>, variant: string): real {
    if names == [] then 0.0
    else
      var n := |names| - 1;
      VariantTotal(tests, names[..n], variant) + if names[n] in tests then Get(tests[names[n]], variant) else 0.0
  }

  class Suite {
    var tests: seq<string>
    var totalRuntime: real
    var variantRuntime: map<string, real>

    /** The accumulated runtimes are those of the suite's tests. */
    ghost predicate Accounts(data: map<string, TestData>)
      reads this
    {
      && totalRuntime == Total(data, tests)
      && MAX_RUNTIME_KEY !in variantRuntime
      && forall v :: v != MAX_RUNTIME_KEY ==> Get(variantRuntime, v) == VariantTotal(data, tests, v)
    }

    constructor ()
      ensures tests == [] && totalRuntime == 0.0 && variantRuntime == map[]
    {
      tests, totalRuntime, variantRuntime := [], 0.0, map[];
    }

    /** Adds a test; its data may be visited in any order of keys. */
    method AddTest(name: string, testData: TestData)
      modifies this
      ensures tests == old(tests) + [name]
      ensures totalRuntime == old(totalRuntime) + Get(testData, MAX_RUNTIME_KEY)
      ensures variantRuntime.Keys == old(variantRuntime.Keys) + (testData.Keys - {MAX_RUNTIME_KEY})
      ensures forall v :: v != MAX_RUNTIME_KEY ==> Get(variantRuntime, v) == Get(old(variantRuntime), v) + Get(testData, v)
    {
      tests := tests + [name];
      var left := testData.Keys;
      while left != {}
        invariant left <= testData.Keys && tests == old(tests) + [name]
        invariant totalRuntime ==
                  old(totalRuntime) + if MAX_RUNTIME_KEY in left then 0.0 else Get(testData, MAX_RUNTIME_KEY)
        invariant variantRuntime.Keys == old(variantRuntime.Keys) + (testData.Keys - left - {MAX_RUNTIME_KEY})
        invariant forall v :: v != MAX_RUNTIME_KEY ==>
                    Get(variantRuntime, v) == Get(old(variantRuntime), v) + if v in left then 0.0 else Get(testData, v)
        decreases left
      {
        var variant :| variant in left;
        if variant == MAX_RUNTIME_KEY {
          totalRuntime := totalRuntime + testData[variant];
        } else {
          variantRuntime := variantRuntime[variant := Get(variantRuntime, variant) + testData[variant]];
        }
        left := left - {variant};
      }
    }
  }

  /** Records a test whose data is known in a suite that accounts for its tests. */
  lemma AccountsStep(data: map<string, TestData>, names: seq<string>, name: string)
    requires name in data
    ensures Total(data, names + [name]) == Total(data, names) + Get(data[name], MAX_RUNTIME_KEY)
    ensures forall v :: VariantTotal(data, names + [name], v) == VariantTotal(data, names, v) + Get(data[name], v)
  {
    assert (names + [name])[..|names|] == names;
  }

  /** After `i` tests, `parts` are finished and `open` is the beginning of the next part of the division. */
  ghost predicate Filling(data: map<string, TestData>, sorted: seq<string>, limit: real,
                          i: nat, parts: seq<seq<string>>, open: seq<string>)
    requires i <= |sorted|
  {
    && Split(data, sorted, limit) == parts + Split(data, open + sorted[i..], limit)
    && (open != [] ==>
          FirstLength(data, open + sorted[i..], limit) == |open| + Fit(data, Total(data, open), sorted[i..], limit))
  }

  lemma FillingStart(data: map<string, TestData>, sorted: seq<string>, limit: real)
    ensures Filling(data, sorted, limit, 0, [], [])
  {
    assert [] + sorted[0..] == sorted;
  }

  lemma FillingOpens(data: map<string, TestData>, sorted: seq<string>, limit: real, i: nat, parts: seq<seq<string>>)
    requires i < |sorted| && Filling(data, sorted, limit, i, parts, [])
    ensures Filling(data, sorted, limit, i + 1, parts, [sorted[i]])
  {
    var rest := sorted[i..];
    assert [] + rest == rest == [sorted[i]] + sorted[i + 1..];
    TotalOne(data, sorted[i]);
    assert rest[1..] == sorted[i + 1..];
  }

  lemma FillingGrows(data: map<string, TestData>, sorted: seq<string>, limit: real, i: nat, parts: seq<seq<string>>, open: seq<string>)
    requires i < |sorted| && open != [] && Filling(data, sorted, limit, i, parts, open)
    requires Total(data, open) + Weight(data, sorted[i]) <= limit
    ensures Filling(data, sorted, limit, i + 1, parts, open + [sorted[i]])
  {
    hide Split, FirstLength, Total;
    var rest := sorted[i..];
    assert open + rest == open + [sorted[i]] + sorted[i + 1..];
    TotalConcat(data, open, [sorted[i]]);
    TotalOne(data, sorted[i]);
    assert rest[1..] == sorted[i + 1..];
    assert Fit(data, Total(data, open), rest, limit) == 1 + Fit(data, Total(data, open + [sorted[i]]), rest[1..], limit);
  }

  lemma FillingCloses(data: map<string, TestData>, sorted: seq<string>, limit: real, i: nat, parts: seq<seq<string>>, open: seq<string>)
    requires i <= |sorted| && open != [] && Filling(data, sorted, limit, i, parts, open)
    requires i < |sorted| ==> Total(data, open) + Weight(data, sorted[i]) > limit
    ensures Filling(data, sorted, limit, i, parts + [open], [])
  {
    var rest := sorted[i..];
    assert (open + rest)[..|open|] == open && (open + rest)[|open|..] == rest == [] + rest;
  }

  method DivideTestsIntoSuitesByMaxtime(data: map<string, TestData>, sorted: seq<string>, limit: real)
    returns (suites: seq<Suite>)
    requires forall i :: 0 <= i < |sorted| ==> sorted[i] in data
    ensures |suites| == |Split(data, sorted, limit)|
    ensures forall k :: 0 <= k < |suites| ==> suites[k].tests == Split(data, sorted, limit)[k] && suites[k].Accounts(data)
  {
    hide Filling, Total, VariantTotal;
    suites := [];
    var current := new Suite();
    ghost var parts: seq<seq<string>> := [];
    AccountsNothing(data);
    FillingStart(data, sorted, limit);
    for i := 0 to |sorted|
      invariant |parts| == |suites|
      invariant forall k :: 0 <= k < |suites| ==>
                  suites[k] != current && suites[k].tests == parts[k] && suites[k].Accounts(data)
      invariant fresh(current) && current.Accounts(data)
      invariant Filling(data, sorted, limit, i, parts, current.tests)
    {
      var name := sorted[i];
      var test := data[name];
      if current.totalRuntime + Get(test, MAX_RUNTIME_KEY) > limit {
        if |current.tests| > 0 {
          FillingCloses(data, sorted, limit, i, parts, current.tests);
          suites := suites + [current];
          parts := parts + [current.tests];
          current := new Suite();
          AccountsNothing(data);
        }
      }
      AccountsStep(data, current.tests, name);
      if current.tests == [] {
        FillingOpens(data, sorted, limit, i, parts);
      } else {
        FillingGrows(data, sorted, limit, i, parts, current.tests);
      }
      ghost var open := current.tests;
      current.AddTest(name, test);
      assert open == [] ==> current.tests == [name];
    }
    if |current.tests| > 0 {
      FillingCloses(data, sorted, limit, |sorted|, parts, current.tests);
      suites := suites + [current];
      parts := parts + [current.tests];
    }
    FillingEnds(data, sorted, limit, parts);
  }

  lemma FillingEnds(data: map<string, TestData>, sorted: seq<string>, limit: real, parts: seq<seq<string>>)
    requires Filling(data, sorted, limit, |sorted|, parts, [])
    ensures Split(data, sorted, limit) == parts
  {
    assert [] + sorted[|sorted|..] == [];
  }

  lemma AccountsNothing(data: map<string, TestData>)
    ensures Total(data, []) == 0.0 && forall v :: VariantTotal(data, [], v) == 0.0
  {
  }

  // ----- Runtimes per variant -----

  /** A test's largest runtime is recorded, is at least zero, and no variant exceeds it. */
  ghost predicate Dominated(testData: TestData) {
    Get(testData, MAX_RUNTIME_KEY) >= 0.0 && forall v :: v in testData ==> testData[v] <= Get(testData, MAX_RUNTIME_KEY)
  }

  lemma {:induction false} VariantWithinTotal(data: map<string, TestData>, names: seq<string>, variant: string)
    requires forall i :: 0 <= i < |names| ==> names[i] in data && Dominated(data[names[i]])
    ensures VariantTotal(data, names, variant) <= Total(data, names)
  {
    if names != [] {
      VariantWithinTotal(data, names[..|names| - 1], variant);
      assert Dominated(data[names[|names| - 1]]);
    }
  }

  /** On every variant, every suite of the division that is within the limit runs within the limit. */
  lemma SuiteMeetsLimitOnEveryVariant(data: map<string, TestData>, sorted: seq<string>, limit: real, k: nat, variant: string)
    requires forall name :: name in data ==> Dominated(data[name])
    requires forall i :: 0 <= i < |sorted| ==> sorted[i] in data
    requires k < |Split(data, sorted, limit)|
    ensures var part := Split(data, sorted, limit)[k];
            VariantTotal(data, part, variant) <= limit || (|part| == 1 && Weight(data, part[0]) > limit)
  {
    SplitKeepsTestsAndLimit(data, sorted, limit);
    var parts := Split(data, sorted, limit);
    FlattenMembers(parts);
    forall i | 0 <= i < |parts[k]|
      ensures parts[k][i] in data
    {
      assert parts[k][i] in sorted;
    }
    assert FitsOrSingle(data, parts[k], limit);
    VariantWithinTotal(data, parts[k], variant);
  }

  // ----- Where the runtimes come from -----

  function Sum(runs: seq<real>): real {
    if runs == [] then 0.0 else Sum(runs[..|runs| - 1]) + runs[|runs| - 1]
  }

  function Average(runs: seq<real>): real
    requires runs != []
  {
    Sum(runs) / |runs| as real
  }

  lemma {:induction false} SumIsBetween(runs: seq<real>, least: real, largest: real)
    requires forall k :: 0 <= k < |runs| ==> least <= runs[k] <= largest
    ensures least * |runs| as real <= Sum(runs) <= largest * |runs| as real
  {
    if runs != [] {
      SumIsBetween(runs[..|runs| - 1], least, largest);
    }
  }

  /** The average times the number of runs is their sum, and it is between the shortest and the longest. */
  lemma AverageIsMean(runs: seq<real>, least: real, largest: real)
    requires runs != [] && forall k :: 0 <= k < |runs| ==> least <= runs[k] <= largest
    ensures Average(runs) * |runs| as real == Sum(runs) && least <= Average(runs) <= largest
  {
    SumIsBetween(runs, least, largest);
    QuotientIsBetween(Sum(runs), |runs| as real, least, largest);
  }

  lemma QuotientIsBetween(sum: real, n: real, least: real, largest: real)
    requires n > 0.0 && least * n <= sum <= largest * n
    ensures sum / n * n == sum && least <= sum / n <= largest
  {
  }

  /** The runs of one test on one variant. */
  datatype VariantRuns = VariantRuns(variant: string, runs: seq<real>)

  ghost predicate DistinctVariants(groups: seq<VariantRuns>) {
    forall i, j :: 0 <= i < j < |groups| ==> groups[i].variant != groups[j].variant
  }

  /** No variant is recorded in front of one with the reserved name, and that one has no negative average. */
  ghost predicate KeyHidesNothing(groups: seq<VariantRuns>)
    requires forall i :: 0 <= i < |groups| ==> groups[i].runs != []
  {
    && (forall i :: 0 < i < |groups| ==> groups[i].variant != MAX_RUNTIME_KEY)
    && (groups != [] && groups[0].variant == MAX_RUNTIME_KEY ==> Average(groups[0].runs) >= 0.0)
  }

  /** `testData` holds the averages of the groups and, for any groups at all, the largest of them and zero. */
  ghost predicate Organized(groups: seq<VariantRuns>, testData: TestData)
    requires forall i :: 0 <= i < |groups| ==> groups[i].runs != []
  {
    && Dominated(testData)
    && (forall i :: 0 <= i < |groups| ==> Recorded(testData, groups[i]))
    && (forall v :: v in testData && v != MAX_RUNTIME_KEY ==> exists i :: 0 <= i < |groups| && groups[i].variant == v)
    && (groups != [] <==> MAX_RUNTIME_KEY in testData)
    && (|| Get(testData, MAX_RUNTIME_KEY) == 0.0
        || exists i :: 0 <= i < |groups| && Get(testData, MAX_RUNTIME_KEY) == Average(groups[i].runs))
  }

  /** The average is there under its variant; under the reserved name, something at least as large. */
  ghost predicate Recorded(testData: TestData, g: VariantRuns)
    requires g.runs != []
  {
    && g.variant in testData
    && if g.variant == MAX_RUNTIME_KEY then testData[g.variant] >= Average(g.runs)
       else testData[g.variant] == Average(g.runs)
  }

  /** The data after one more variant.  Reading the largest runtime creates it as zero. */
  function Record(testData: TestData, g: VariantRuns): TestData
    requires g.runs != []
  {
    var average := Average(g.runs);
    var recorded := testData[g.variant := average];
    var largest := Get(recorded, MAX_RUNTIME_KEY);
    recorded[MAX_RUNTIME_KEY := if average > largest then average else largest]
  }

  function OrganizedData(groups: seq<VariantRuns>): TestData
    requires forall i :: 0 <= i < |groups| ==> groups[i].runs != []
  {
    if groups == [] then map[] else Record(OrganizedData(groups[..|groups| - 1]), groups[|groups| - 1])
  }

  method OrganizeVariants(groups: seq<VariantRuns>) returns (testData: TestData)
    requires forall i :: 0 <= i < |groups| ==> groups[i].runs != []
    ensures testData == OrganizedData(groups)
  {
    hide Average;
    testData := map[];
    for n := 0 to |groups|
      invariant testData == OrganizedData(groups[..n])
    {
      var variant, average := groups[n].variant, Average(groups[n].runs);
      testData := testData[variant := average];
      testData := testData[MAX_RUNTIME_KEY := Get(testData, MAX_RUNTIME_KEY)];
      if average > testData[MAX_RUNTIME_KEY] {
        testData := testData[MAX_RUNTIME_KEY := average];
      }
      assert groups[..n + 1][..n] == groups[..n];
    }
    assert groups[..|groups|] == groups;
  }

  /**
    Every average is recorded, and the largest runtime is their maximum and never negative, when
    the reserved name hides nothing.
   */
  lemma {:induction false} OrganizedIsDominated(groups: seq<VariantRuns>)
    requires forall i :: 0 <= i < |groups| ==> groups[i].runs != []
    requires DistinctVariants(groups) && KeyHidesNothing(groups)
    ensures Organized(groups, OrganizedData(groups))
  {
    if groups != [] {
      var init, last := groups[..|groups| - 1], groups[|groups| - 1];
      OrganizedIsDominated(init);
      assert init + [last] == groups;
      OrganizedStep(init, last, OrganizedData(init));
    }
  }

  lemma OrganizedStep(groups: seq<VariantRuns>, g: VariantRuns, before: TestData)
    requires forall i :: 0 <= i < |groups| ==> groups[i].runs != [] && groups[i].variant != g.variant
    requires g.runs != [] && Organized(groups, before)
    requires g.variant == MAX_RUNTIME_KEY ==> groups == [] && Average(g.runs) >= 0.0
    ensures Organized(groups + [g], Record(before, g))
  {
    hide Average;
    var all, testData := groups + [g], Record(before, g);
    forall v | v in testData && v != MAX_RUNTIME_KEY
      ensures exists i :: 0 <= i < |all| && all[i].variant == v
    {
      if v == g.variant {
        assert all[|groups|].variant == v;
      } else {
        var i :| 0 <= i < |groups| && groups[i].variant == v;
        assert all[i].variant == v;
      }
    }
    forall i | 0 <= i < |all|
      ensures Recorded(testData, all[i])
    {
      if i < |groups| {
        assert Recorded(before, groups[i]);
      }
    }
    if Get(testData, MAX_RUNTIME_KEY) != 0.0 {
      if Get(testData, MAX_RUNTIME_KEY) == Average(g.runs) {
        assert all[|groups|] == g;
      } else {
        var i :| 0 <= i < |groups| && Get(before, MAX_RUNTIME_KEY) == Average(groups[i].runs);
        assert all[i] == groups[i];
      }
    }
  }

  // ----- Exactly which variant names are safe -----

  /** Runs of the variants in this order; durations are not negative unless `anyDurations`. */
  ghost predicate RunsOf(variants: seq<string>, groups: seq<VariantRuns>, anyDurations: bool) {
    && |groups| == |variants|
    && (forall i :: 0 <= i < |groups| ==> groups[i].variant == variants[i] && groups[i].runs != [])
    && (anyDurations || forall i, k :: 0 <= i < |groups| && 0 <= k < |groups[i].runs| ==> groups[i].runs[k] >= 0.0)
  }

  /** Whatever the durations, the data are dominated. */
  ghost predicate AlwaysDominated(variants: seq<string>, anyDurations: bool) {
    forall groups :: RunsOf(variants, groups, anyDurations) ==> Dominated(OrganizedData(groups))
  }

  lemma {:induction false} SumNonNegative(runs: seq<real>)
    requires forall k :: 0 <= k < |runs| ==> runs[k] >= 0.0
    ensures Sum(runs) >= 0.0
  {
    if runs != [] {
      SumNonNegative(runs[..|runs| - 1]);
    }
  }

  lemma AverageOfOne(x: real)
    ensures Average([x]) == x
  {
    var one := [x];
    assert one[..0] == [] && Sum(one) == Sum(one[..0]) + x && Sum(one[..0]) == 0.0;
    assert Average(one) == x / 1.0;
  }

  /** The first variant runs for `first`, all others for `other`. */
  function Sample(variants: seq<string>, first: real, other: real): seq<VariantRuns> {
    seq(|variants|, i requires 0 <= i < |variants| => VariantRuns(variants[i], [if i == 0 then first else other]))
  }

  lemma SampleAt(variants: seq<string>, first: real, other: real, n: nat)
    requires 0 < n <= |variants|
    ensures var groups := Sample(variants, first, other);
            OrganizedData(groups[..n]) == Record(OrganizedData(groups[..n - 1]), groups[n - 1])
            && Average(groups[n - 1].runs) == if n == 1 then first else other
  {
    var groups := Sample(variants, first, other);
    assert groups[..n][..n - 1] == groups[..n - 1];
    AverageOfOne(if n == 1 then first else other);
  }

  /** A variant in front of the reserved name keeps its runtime, and the reserved name loses it. */
  lemma {:induction false} FirstIsHidden(variants: seq<string>, key: nat, n: nat)
    requires 0 < key < |variants| && variants[key] == MAX_RUNTIME_KEY && 0 < n <= |variants|
    requires forall i, j :: 0 <= i < j < |variants| ==> variants[i] != variants[j]
    ensures var testData := OrganizedData(Sample(variants, 1.0, 0.0)[..n]);
            && variants[0] in testData && testData[variants[0]] == 1.0
            && (n > key ==> MAX_RUNTIME_KEY in testData && testData[MAX_RUNTIME_KEY] == 0.0)
  {
    hide Average;
    SampleAt(variants, 1.0, 0.0, n);
    assert variants[n - 1] == MAX_RUNTIME_KEY <==> n - 1 == key;
    if n > 1 {
      FirstIsHidden(variants, key, n - 1);
    }
  }

  /** The reserved name in front takes over a negative average. */
  lemma {:induction false} FirstIsNegative(variants: seq<string>, n: nat)
    requires 0 < n <= |variants| && variants[0] == MAX_RUNTIME_KEY
    requires forall i, j :: 0 <= i < j < |variants| ==> variants[i] != variants[j]
    ensures var testData := OrganizedData(Sample(variants, -1.0, -1.0)[..n]);
            MAX_RUNTIME_KEY in testData && testData[MAX_RUNTIME_KEY] == -1.0
  {
    hide Average;
    SampleAt(variants, -1.0, -1.0, n);
    if n > 1 {
      FirstIsNegative(variants, n - 1);
    }
  }

  lemma SampleIsRunsOf(variants: seq<string>, first: real, other: real)
    ensures RunsOf(variants, Sample(variants, first, other), true)
    ensures first >= 0.0 && other >= 0.0 ==> RunsOf(variants, Sample(variants, first, other), false)
    ensures Sample(variants, first, other)[..|variants|] == Sample(variants, first, other)
  {
  }

  /**
    For distinct variants in a given order, the largest runtime dominates for all non-negative
    durations exactly when no variant stands in front of one with the reserved name, and for all
    durations whatsoever exactly when no variant has that name.
   */
  lemma AlwaysDominatedIff(variants: seq<string>, anyDurations: bool)
    requires forall i, j :: 0 <= i < j < |variants| ==> variants[i] != variants[j]
    ensures AlwaysDominated(variants, anyDurations) <==>
            forall i :: (if anyDurations then 0 else 1) <= i < |variants| ==> variants[i] != MAX_RUNTIME_KEY
  {
    var safe := forall i :: (if anyDurations then 0 else 1) <= i < |variants| ==> variants[i] != MAX_RUNTIME_KEY;
    if safe {
      forall groups: seq<VariantRuns> | RunsOf(variants, groups, anyDurations)
        ensures Dominated(OrganizedData(groups))
      {
        if groups != [] && groups[0].variant == MAX_RUNTIME_KEY {
          SumNonNegative(groups[0].runs);
        }
        OrganizedIsDominated(groups);
      }
    } else {
      var key :| 0 <= key < |variants| && variants[key] == MAX_RUNTIME_KEY && (anyDurations || key > 0);
      UnsafeKey(variants, anyDurations, key);
    }
  }

  lemma UnsafeKey(variants: seq<string>, anyDurations: bool, key: nat)
    requires forall i, j :: 0 <= i < j < |variants| ==> variants[i] != variants[j]
    requires key < |variants| && variants[key] == MAX_RUNTIME_KEY && (anyDurations || key > 0)
    ensures !AlwaysDominated(variants, anyDurations)
  {
    hide OrganizedData, Sample, RunsOf;
    var groups := if key > 0 then Sample(variants, 1.0, 0.0) else Sample(variants, -1.0, -1.0);
    SampleIsRunsOf(variants, 1.0, 0.0);
    SampleIsRunsOf(variants, -1.0, -1.0);
    if key > 0 {
      FirstIsHidden(variants, key, |variants|);
      assert variants[0] != MAX_RUNTIME_KEY;
    } else {
      FirstIsNegative(variants, |variants|);
    }
    RunsAreNonempty(variants, groups, anyDurations);
    assert !Dominated(OrganizedData(groups));
  }

  lemma RunsAreNonempty(variants: seq<string>, groups: seq<VariantRuns>, anyDurations: bool)
    requires RunsOf(variants, groups, anyDurations)
    ensures forall i :: 0 <= i < |groups| ==> groups[i].runs != []
  {
  }
}
