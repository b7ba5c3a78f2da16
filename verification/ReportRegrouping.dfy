/** Daily summaries lose nothing: a summary by fewer components, and by any period, can be taken from one. */
module ReportRegrouping {
  import opened Sequences
  import opened ReportEntries
  import opened ReportGroups

  ghost predicate Coarser(coarse: Grouping, fine: Grouping) {
    && ValidGrouping(coarse) && fine.period == Daily
    && forall c :: c in coarse.components ==> c in fine.components
  }

  /** The coarse key of a fine group's sum is the coarse key of every entry of the group. */
  lemma CoarseKeyOfSum(coarse: Grouping, fine: Grouping, run: seq<Entry>, j: nat)
    requires Coarser(coarse, fine) && IsRun(fine, run) && ValidEntries(run) && j < |run|
    ensures KeyOf(coarse, Sum(run)) == KeyOf(coarse, run[j])
  {
    DatesBounded(run);
    var e :| e in run && e.startDate == FirstStart(run);
    var m :| 0 <= m < |run| && run[m] == e;
    assert KeyOf(fine, run[m]) == KeyOf(fine, run[0]) == KeyOf(fine, run[j]);
    forall i | 0 <= i < |coarse.components|
      ensures Field(Sum(run), coarse.components[i]) == Field(run[j], coarse.components[i])
    {
      FineFieldIsCommon(fine, run, coarse.components[i], j);
    }
    assert Values(coarse.components, Sum(run)) == Values(coarse.components, run[j]);
  }

  lemma FineFieldIsCommon(fine: Grouping, run: seq<Entry>, c: Component, j: nat)
    requires ValidGrouping(fine) && IsRun(fine, run) && c in fine.components && j < |run|
    ensures Field(Sum(run), c) == Common(run, c) == Field(run[j], c)
  {
    var p :| 0 <= p < |fine.components| && fine.components[p] == c;
    forall i | 0 <= i < |run|
      ensures Field(run[i], c) == Field(run[j], c)
    {
      assert KeyOf(fine, run[i]) == KeyOf(fine, run[j]);
      assert Values(fine.components, run[i])[p] == Values(fine.components, run[j])[p];
    }
  }

  /** The groups whose entries have coarse key `k`. */
  function SelectGroups(g: Grouping, groups: seq<seq<Entry>>, k: Key): (r: seq<seq<Entry>>)
    requires ValidGrouping(g) && forall i :: 0 <= i < |groups| ==> groups[i] != []
    ensures forall i :: 0 <= i < |r| ==> r[i] != [] && r[i] in groups
  {
    if groups == [] then []
    else
      var last := groups[|groups| - 1];
      SelectGroups(g, groups[..|groups| - 1], k) + if RunKey(g, last) == k then [last] else []
  }

  /** Groups on which the coarse key, too, is the same throughout and that of the sum. */
  ghost predicate CoarseRun(coarse: Grouping, run: seq<Entry>)
    requires ValidGrouping(coarse)
  {
    IsRun(coarse, run) && KeyOf(coarse, Sum(run)) == RunKey(coarse, run)
  }

  lemma FineRunIsCoarseRun(coarse: Grouping, fine: Grouping, run: seq<Entry>)
    requires Coarser(coarse, fine) && IsRun(fine, run) && ValidEntries(run)
    ensures CoarseRun(coarse, run)
  {
    CoarseKeyOfSum(coarse, fine, run, 0);
    forall j | 0 <= j < |run|
      ensures KeyOf(coarse, run[j]) == RunKey(coarse, run)
    {
      CoarseKeyOfSum(coarse, fine, run, j);
    }
  }

  lemma {:induction false} SelectFromSums(coarse: Grouping, groups: seq<seq<Entry>>, k: Key)
    requires ValidGrouping(coarse)
    requires forall i :: 0 <= i < |groups| ==> groups[i] != [] && CoarseRun(coarse, groups[i])
    ensures Select(coarse, Sums(groups), k) == Sums(SelectGroups(coarse, groups, k))
  {
    hide KeyOf, Sum, IsRun;
    if groups != [] {
      var init, last := groups[..|groups| - 1], groups[|groups| - 1];
      SelectFromSums(coarse, init, k);
      assert CoarseRun(coarse, last);
      var sums := Sums(groups);
      assert sums[..|groups| - 1] == Sums(init) && sums[|groups| - 1] == Sum(last);
      var chosen := SelectGroups(coarse, init, k);
      assert Sums(chosen + [last]) == Sums(chosen) + [Sum(last)];
    }
  }

  lemma {:induction false} SelectFromFlatten(coarse: Grouping, groups: seq<seq<Entry>>, k: Key)
    requires ValidGrouping(coarse)
    requires forall i :: 0 <= i < |groups| ==> groups[i] != [] && CoarseRun(coarse, groups[i])
    ensures Flatten(SelectGroups(coarse, groups, k)) == Select(coarse, Flatten(groups), k)
  {
    hide KeyOf, Sum;
    if groups != [] {
      var init, last := groups[..|groups| - 1], groups[|groups| - 1];
      SelectFromFlatten(coarse, init, k);
      assert CoarseRun(coarse, last);
      SelectConcat(coarse, Flatten(init), last, k);
      SelectAllOrNothing(coarse, last, k);
      var chosen := SelectGroups(coarse, init, k);
      if RunKey(coarse, last) == k {
        assert (chosen + [last])[..|chosen|] == chosen;
        assert Flatten(chosen + [last]) == Flatten(chosen) + last;
      } else {
        assert chosen + [] == chosen;
        assert Select(coarse, last, k) == [];
      }
    }
  }

  /** For every coarse key, the fine summaries with that key sum up to what the entries sum up to. */
  lemma SelectionSumsAgree(le: Order, coarse: Grouping, fine: Grouping, es: seq<Entry>, k: Key)
    requires Coarser(coarse, fine) && TotalOrder(le) && ValidEntries(es)
    ensures Sum(Select(coarse, Summed(le, fine, es), k)) == Sum(Select(coarse, es, k))
  {
    hide KeyOf, Sum;
    var groups := GroupsOf(le, fine, es);
    GroupsAre(le, fine, es);
    GroupsValid(le, fine, es);
    forall i | 0 <= i < |groups|
      ensures CoarseRun(coarse, groups[i])
    {
      assert IsRun(fine, groups[i]);
      FineRunIsCoarseRun(coarse, fine, groups[i]);
    }
    SelectFromSums(coarse, groups, k);
    SelectFromFlatten(coarse, groups, k);
    SelectOfPermutation(coarse, Flatten(groups), es, k);
    SelectMembers(coarse, Flatten(groups), k);
    SameElements(Flatten(groups), es);
    SumOfPermutation(Select(coarse, Flatten(groups), k), Select(coarse, es, k));
    SumOfSums(SelectGroups(coarse, groups, k));
  }

  lemma GroupsValid(le: Order, g: Grouping, es: seq<Entry>)
    requires ValidGrouping(g) && TotalOrder(le) && ValidEntries(es)
    ensures forall i :: 0 <= i < |GroupsOf(le, g, es)| ==> ValidEntries(GroupsOf(le, g, es)[i])
  {
    var groups := GroupsOf(le, g, es);
    GroupsAre(le, g, es);
    SameElements(Flatten(groups), es);
    FlattenMembers(groups);
  }

  // ----- The keys agree -----

  function KeysOf(g: Grouping, groups: seq<seq<Entry>>): (r: seq<Key>)
    requires ValidGrouping(g) && forall i :: 0 <= i < |groups| ==> groups[i] != []
    ensures |r| == |groups| && forall i :: 0 <= i < |groups| ==> r[i] == RunKey(g, groups[i])
  {
    seq(|groups|, i requires 0 <= i < |groups| => RunKey(g, groups[i]))
  }

  ghost predicate Ascending(le: Order, keys: seq<Key>) {
    forall i, j :: 0 <= i < j < |keys| ==> le(keys[i], keys[j]) && keys[i] != keys[j]
  }

  lemma {:induction false} AscendingUnique(le: Order, a: seq<Key>, b: seq<Key>)
    requires TotalOrder(le) && Ascending(le, a) && Ascending(le, b) && forall k :: k in a <==> k in b
    ensures a == b
  {
    if a != [] {
      assert a[0] in a;
      var i :| 0 <= i < |b| && b[i] == a[0];
    }
    if b != [] {
      assert b[0] in b;
      var j :| 0 <= j < |a| && a[j] == b[0];
      assert a[0] == b[0];
      forall k
        ensures k in a[1..] <==> k in b[1..]
      {
        assert k in a <==> k == a[0] || k in a[1..];
        assert k in b <==> k == b[0] || k in b[1..];
      }
      AscendingUnique(le, a[1..], b[1..]);
      assert a == [a[0]] + a[1..] && b == [b[0]] + b[1..];
    }
  }

  ghost predicate HasKey(g: Grouping, es: seq<Entry>, k: Key)
    requires ValidGrouping(g)
  {
    exists e :: e in es && KeyOf(g, e) == k
  }

  lemma GroupKeys(le: Order, g: Grouping, es: seq<Entry>)
    requires ValidGrouping(g) && TotalOrder(le)
    ensures AreRuns(le, g, GroupsOf(le, g, es))
    ensures Ascending(le, KeysOf(g, GroupsOf(le, g, es)))
    ensures forall k :: k in KeysOf(g, GroupsOf(le, g, es)) <==> HasKey(g, es, k)
  {
    hide KeyOf, GroupsOf;
    var groups := GroupsOf(le, g, es);
    GroupsAre(le, g, es);
    assert forall i :: 0 <= i < |groups| ==> IsRun(g, groups[i]);
    var keys := KeysOf(g, groups);
    SameElements(Flatten(groups), es);
    FlattenMembers(groups);
    forall k | k in keys
      ensures HasKey(g, es, k)
    {
      var i :| 0 <= i < |groups| && keys[i] == k;
      assert groups[i][0] in groups[i];
      assert KeyOf(g, groups[i][0]) == k;
    }
    forall e | e in es
      ensures KeyOf(g, e) in keys
    {
      KeyHasGroup(le, g, es, groups, e);
      var i :| 0 <= i < |groups| && RunKey(g, groups[i]) == KeyOf(g, e);
      assert keys[i] == KeyOf(g, e);
    }
  }

  lemma SameKeys(le: Order, coarse: Grouping, fine: Grouping, es: seq<Entry>)
    requires Coarser(coarse, fine) && TotalOrder(le) && ValidEntries(es)
    ensures AreRuns(le, coarse, GroupsOf(le, coarse, es)) && AreRuns(le, coarse, GroupsOf(le, coarse, Summed(le, fine, es)))
    ensures KeysOf(coarse, GroupsOf(le, coarse, Summed(le, fine, es))) == KeysOf(coarse, GroupsOf(le, coarse, es))
  {
    hide KeyOf;
    var sums, groups := Summed(le, fine, es), GroupsOf(le, fine, es);
    GroupsAre(le, fine, es);
    GroupsValid(le, fine, es);
    GroupKeys(le, coarse, es);
    GroupKeys(le, coarse, sums);
    SameElements(Flatten(groups), es);
    FlattenMembers(groups);
    forall k
      ensures HasKey(coarse, sums, k) <==> HasKey(coarse, es, k)
    {
      if s :| s in sums && KeyOf(coarse, s) == k {
        var i :| 0 <= i < |groups| && sums[i] == s;
        assert IsRun(fine, groups[i]) && groups[i][0] in groups[i];
        CoarseKeyOfSum(coarse, fine, groups[i], 0);
      }
      if e :| e in es && KeyOf(coarse, e) == k {
        var i :| 0 <= i < |groups| && e in groups[i];
        assert IsRun(fine, groups[i]);
        var j :| 0 <= j < |groups[i]| && groups[i][j] == e;
        CoarseKeyOfSum(coarse, fine, groups[i], j);
        assert sums[i] in sums;
      }
    }
    AscendingUnique(le, KeysOf(coarse, GroupsOf(le, coarse, sums)), KeysOf(coarse, GroupsOf(le, coarse, es)));
  }

  /**
    Summarizing a finer daily summary by fewer components, whatever the period, gives, field for
    field and in the same order, what summarizing the entries themselves gives.
   */
  lemma RegroupingIsLossless(le: Order, coarse: Grouping, fine: Grouping, es: seq<Entry>)
    requires Coarser(coarse, fine) && TotalOrder(le) && ValidEntries(es)
    ensures Summed(le, coarse, Summed(le, fine, es)) == Summed(le, coarse, es)
    ensures ValidEntries(Summed(le, fine, es))
  {
    hide KeyOf, Sum;
    var sums := Summed(le, fine, es);
    SummedDates(le, fine, es);
    SameKeys(le, coarse, fine, es);
    SummariesAre(le, coarse, sums);
    SummariesAre(le, coarse, es);
    var a, b := GroupsOf(le, coarse, sums), GroupsOf(le, coarse, es);
    assert |a| == |KeysOf(coarse, a)| == |KeysOf(coarse, b)| == |b|;
    forall i | 0 <= i < |b|
      ensures Summed(le, coarse, sums)[i] == Summed(le, coarse, es)[i]
    {
      assert RunKey(coarse, a[i]) == KeysOf(coarse, a)[i] == KeysOf(coarse, b)[i] == RunKey(coarse, b[i]);
      SelectionSumsAgree(le, coarse, fine, es, RunKey(coarse, b[i]));
    }
  }

  /** A summary keeps the report's first and last day and its counts. */
  lemma SummedDates(le: Order, g: Grouping, es: seq<Entry>)
    requires ValidGrouping(g) && TotalOrder(le) && ValidEntries(es)
    ensures ValidEntries(Summed(le, g, es))
    ensures FirstStart(Summed(le, g, es)) == FirstStart(es) && LastEnd(Summed(le, g, es)) == LastEnd(es)
    ensures Passes(Summed(le, g, es)) == Passes(es) && Fails(Summed(le, g, es)) == Fails(es)
  {
    var groups := GroupsOf(le, g, es);
    GroupsAre(le, g, es);
    SameElements(Flatten(groups), es);
    NumbersOfPermutation(Flatten(groups), es);
    assert forall i :: 0 <= i < |groups| ==> IsRun(g, groups[i]);
    NumbersOfSums(groups);
  }
}
