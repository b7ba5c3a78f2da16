/**
  Summarizing a report: sort by key, group equal keys, sum each group.

  The keys may be compared by any total order: which one Python picks for values of different
  kinds does not matter to what is proved here.
 */
module ReportGroups {
  import opened Sequences
  import opened ReportEntries
  import opened Sorting

  datatype Period = Whole | Daily | Weekly(startWeekday: int) | Days(days: int)

  /** How entries are grouped; `anchor` is the start date of the report. */
  datatype Grouping = Grouping(components: seq<Component>, period: Period, anchor: int)

  datatype Key = Key(values: seq<Value>, period: int)

  // ----- Periods -----

  /** Monday is 0, as for `date.weekday`. */
  function Weekday(date: int): int {
    (date + 6) % 7
  }

  function PeriodStart(g: Grouping, date: int): int
    requires g.period.Days? ==> g.period.days > 0
  {
    match g.period
    case Whole => 0
    case Daily => date
    case Weekly(w) => date - (Weekday(date) - w) % 7
    case Days(n) => date - (date - g.anchor) % n
  }

  predicate ValidGrouping(g: Grouping) {
    g.period.Days? ==> g.period.days > 0
  }

  function Values(components: seq<Component>, e: Entry): (r: seq<Value>)
    ensures |r| == |components|
    ensures forall i :: 0 <= i < |components| ==> r[i] == Field(e, components[i])
  {
    seq(|components|, i requires 0 <= i < |components| => Field(e, components[i]))
  }

  function KeyOf(g: Grouping, e: Entry): Key
    requires ValidGrouping(g)
  {
    Key(Values(g.components, e), PeriodStart(g, e.startDate))
  }

  // ----- Sorting and grouping -----

  type Order = (Key, Key) -> bool

  ghost predicate TotalOrder(le: Order) {
    && (forall a, b :: le(a, b) || le(b, a))
    && (forall a, b :: le(a, b) && le(b, a) ==> a == b)
    && (forall a, b, c :: le(a, b) && le(b, c) ==> le(a, c))
  }

  /** Entries compared by key. */
  function KeyBefore(le: Order, g: Grouping): (Entry, Entry) -> bool
    requires ValidGrouping(g)
  {
    (a, b) => le(KeyOf(g, a), KeyOf(g, b))
  }

  /** A stable sort by key. */
  function SortByKey(le: Order, g: Grouping, es: seq<Entry>): seq<Entry>
    requires ValidGrouping(g)
  {
    Sort(KeyBefore(le, g), es)
  }

  /** `itertools.groupby`: the runs of neighbours with equal keys. */
  function Runs(g: Grouping, es: seq<Entry>): (r: seq<seq<Entry>>)
    requires ValidGrouping(g)
    ensures forall i :: 0 <= i < |r| ==> r[i] != []
  {
    if es == [] then []
    else
      var rest := Runs(g, es[1..]);
      if rest != [] && KeyOf(g, rest[0][0]) == KeyOf(g, es[0]) then [[es[0]] + rest[0]] + rest[1..]
      else [[es[0]]] + rest
  }

  /** One summary per key, in key order. */
  function Summed(le: Order, g: Grouping, es: seq<Entry>): seq<Entry>
    requires ValidGrouping(g)
  {
    Sums(Runs(g, SortByKey(le, g, es)))
  }

  // ----- The sort -----

  ghost predicate KeySorted(le: Order, g: Grouping, es: seq<Entry>)
    requires ValidGrouping(g)
  {
    forall i, j :: 0 <= i < j < |es| ==> le(KeyOf(g, es[i]), KeyOf(g, es[j]))
  }

  lemma KeysAreOrdered(le: Order, g: Grouping)
    requires ValidGrouping(g) && TotalOrder(le)
    ensures Preorder(KeyBefore(le, g))
  {
    hide KeyOf;
    var before := KeyBefore(le, g);
    forall a, b
      ensures before(a, b) <==> le(KeyOf(g, a), KeyOf(g, b))
    {
    }
  }

  lemma SortIsByKey(le: Order, g: Grouping, es: seq<Entry>)
    requires ValidGrouping(g) && TotalOrder(le)
    ensures KeySorted(le, g, SortByKey(le, g, es)) && multiset(SortByKey(le, g, es)) == multiset(es)
  {
    hide Sort;
    KeysAreOrdered(le, g);
    hide KeyOf;
    SortSorts(KeyBefore(le, g), es);
    SortKeeps(KeyBefore(le, g), es);
    var r := SortByKey(le, g, es);
    forall i, j | 0 <= i < j < |r|
      ensures le(KeyOf(g, r[i]), KeyOf(g, r[j]))
    {
      assert KeyBefore(le, g)(r[i], r[j]);
    }
  }

  // ----- Runs -----

  /** The key of a run. */
  function RunKey(g: Grouping, run: seq<Entry>): Key
    requires ValidGrouping(g) && run != []
  {
    KeyOf(g, run[0])
  }

  ghost predicate IsRun(g: Grouping, run: seq<Entry>)
    requires ValidGrouping(g)
  {
    run != [] && forall i :: 0 <= i < |run| ==> KeyOf(g, run[i]) == RunKey(g, run)
  }

  /** Runs of `es` in order, each with one key, and the keys strictly ascending. */
  ghost predicate AreRuns(le: Order, g: Grouping, runs: seq<seq<Entry>>)
    requires ValidGrouping(g)
  {
    && (forall i :: 0 <= i < |runs| ==> IsRun(g, runs[i]))
    && forall i, j :: 0 <= i < j < |runs| ==>
         le(RunKey(g, runs[i]), RunKey(g, runs[j])) && RunKey(g, runs[i]) != RunKey(g, runs[j])
  }

  lemma {:induction false} RunsFlatten(g: Grouping, es: seq<Entry>)
    requires ValidGrouping(g)
    ensures Flatten(Runs(g, es)) == es
  {
    if es != [] {
      hide KeyOf;
      var rest, all := Runs(g, es[1..]), Runs(g, es);
      RunsFlatten(g, es[1..]);
      FlattenHead(all);
      if rest != [] && KeyOf(g, rest[0][0]) == KeyOf(g, es[0]) {
        FlattenHead(rest);
        assert all[1..] == rest[1..];
        assert [es[0]] + rest[0] + Flatten(rest[1..]) == [es[0]] + (rest[0] + Flatten(rest[1..]));
      } else {
        assert all[1..] == rest;
      }
    }
  }

  lemma {:induction false} RunsAre(le: Order, g: Grouping, es: seq<Entry>)
    requires ValidGrouping(g) && TotalOrder(le) && KeySorted(le, g, es)
    ensures AreRuns(le, g, Runs(g, es))
    ensures es != [] ==> Runs(g, es) != [] && RunKey(g, Runs(g, es)[0]) == KeyOf(g, es[0])
  {
    if es != [] {
      hide KeyOf, AreRuns;
      var rest := Runs(g, es[1..]);
      RunsAre(le, g, es[1..]);
      if rest != [] {
        assert RunKey(g, rest[0]) == KeyOf(g, es[1]);
        assert le(KeyOf(g, es[0]), KeyOf(g, es[1]));
      }
      if rest != [] && KeyOf(g, rest[0][0]) == KeyOf(g, es[0]) {
        JoinRun(le, g, es[0], rest);
      } else {
        NewRun(le, g, es[0], rest);
      }
    }
  }

  lemma JoinRun(le: Order, g: Grouping, e: Entry, rest: seq<seq<Entry>>)
    requires ValidGrouping(g) && AreRuns(le, g, rest) && rest != [] && rest[0] != [] && KeyOf(g, rest[0][0]) == KeyOf(g, e)
    ensures AreRuns(le, g, [[e] + rest[0]] + rest[1..])
  {
    hide KeyOf;
    var all := [[e] + rest[0]] + rest[1..];
    assert IsRun(g, rest[0]) && RunKey(g, all[0]) == RunKey(g, rest[0]);
    forall i | 0 <= i < |all|
      ensures IsRun(g, all[i]) && RunKey(g, all[i]) == RunKey(g, rest[i])
    {
      assert IsRun(g, rest[i]);
    }
  }

  lemma NewRun(le: Order, g: Grouping, e: Entry, rest: seq<seq<Entry>>)
    requires ValidGrouping(g) && TotalOrder(le) && AreRuns(le, g, rest)
    requires rest != [] ==> rest[0] != [] && le(KeyOf(g, e), RunKey(g, rest[0])) && KeyOf(g, e) != RunKey(g, rest[0])
    ensures AreRuns(le, g, [[e]] + rest)
  {
    hide KeyOf;
    var all := [[e]] + rest;
    forall i | 0 <= i < |all|
      ensures IsRun(g, all[i])
    {
      if i > 0 {
        assert all[i] == rest[i - 1] && IsRun(g, rest[i - 1]);
      }
    }
    forall j | 0 <= j < |rest|
      ensures le(KeyOf(g, e), RunKey(g, rest[j])) && KeyOf(g, e) != RunKey(g, rest[j])
    {
      if j > 0 {
        assert le(RunKey(g, rest[0]), RunKey(g, rest[j])) && RunKey(g, rest[0]) != RunKey(g, rest[j]);
      }
    }
    forall i, j | 0 <= i < j < |all|
      ensures le(RunKey(g, all[i]), RunKey(g, all[j])) && RunKey(g, all[i]) != RunKey(g, all[j])
    {
      assert all[j] == rest[j - 1];
      if i > 0 {
        assert all[i] == rest[i - 1];
      }
    }
  }

  // ----- Selecting by key -----

  function Select(g: Grouping, es: seq<Entry>, k: Key): seq<Entry>
    requires ValidGrouping(g)
  {
    if es == [] then []
    else Select(g, es[..|es| - 1], k) + if KeyOf(g, es[|es| - 1]) == k then [es[|es| - 1]] else []
  }

  lemma {:induction false} SelectConcat(g: Grouping, a: seq<Entry>, b: seq<Entry>, k: Key)
    requires ValidGrouping(g)
    ensures Select(g, a + b, k) == Select(g, a, k) + Select(g, b, k)
  {
    hide KeyOf;
    if b == [] {
      assert a + b == a;
    } else {
      var c, init := a + b, b[..|b| - 1];
      SelectConcat(g, a, init, k);
      assert c[..|c| - 1] == a + init && c[|c| - 1] == b[|b| - 1];
    }
  }

  lemma {:induction false} SelectMembers(g: Grouping, es: seq<Entry>, k: Key)
    requires ValidGrouping(g)
    ensures forall e :: e in Select(g, es, k) <==> e in es && KeyOf(g, e) == k
  {
    hide KeyOf;
    if es != [] {
      SelectMembers(g, es[..|es| - 1], k);
      assert es == es[..|es| - 1] + [es[|es| - 1]];
    }
  }

  lemma {:induction false} SelectAll(g: Grouping, es: seq<Entry>, k: Key)
    requires ValidGrouping(g) && forall i :: 0 <= i < |es| ==> KeyOf(g, es[i]) == k
    ensures Select(g, es, k) == es
  {
    hide KeyOf;
    if es != [] {
      var init, last := es[..|es| - 1], es[|es| - 1];
      SelectAll(g, init, k);
      assert init + [last] == es;
    }
  }

  lemma {:induction false} SelectNothing(g: Grouping, es: seq<Entry>, k: Key)
    requires ValidGrouping(g) && forall i :: 0 <= i < |es| ==> KeyOf(g, es[i]) != k
    ensures Select(g, es, k) == []
  {
    hide KeyOf;
    if es != [] {
      SelectNothing(g, es[..|es| - 1], k);
    }
  }

  lemma SelectAllOrNothing(g: Grouping, es: seq<Entry>, k: Key)
    requires ValidGrouping(g)
    ensures (forall i :: 0 <= i < |es| ==> KeyOf(g, es[i]) == k) ==> Select(g, es, k) == es
    ensures (forall i :: 0 <= i < |es| ==> KeyOf(g, es[i]) != k) ==> Select(g, es, k) == []
  {
    hide KeyOf, Select;
    if forall i :: 0 <= i < |es| ==> KeyOf(g, es[i]) == k {
      SelectAll(g, es, k);
    }
    if forall i :: 0 <= i < |es| ==> KeyOf(g, es[i]) != k {
      SelectNothing(g, es, k);
    }
  }

  lemma SelectWithout(g: Grouping, b: seq<Entry>, i: nat, k: Key)
    requires ValidGrouping(g) && i < |b|
    ensures multiset(Select(g, b, k)) == multiset(Select(g, [b[i]], k)) + multiset(Select(g, Without(b, i), k))
  {
    hide Select;
    var lo, e, hi := b[..i], [b[i]], b[i + 1..];
    assert b == lo + (e + hi);
    SelectConcat(g, lo, e + hi, k);
    SelectConcat(g, e, hi, k);
    SelectConcat(g, lo, hi, k);
  }

  lemma {:induction false} SelectOfPermutation(g: Grouping, a: seq<Entry>, b: seq<Entry>, k: Key)
    requires ValidGrouping(g) && multiset(a) == multiset(b)
    ensures multiset(Select(g, a, k)) == multiset(Select(g, b, k))
  {
    if a == [] {
      assert |multiset(b)| == 0;
    } else {
      hide Select;
      var i := HeadOccurs(a, b);
      assert Without(a, 0) == a[1..];
      SelectOfPermutation(g, a[1..], Without(b, i), k);
      SelectWithout(g, a, 0, k);
      SelectWithout(g, b, i, k);
    }
  }

  /** Each run is everything with its key. */
  lemma {:induction false} RunIsSelection(le: Order, g: Grouping, runs: seq<seq<Entry>>, i: nat)
    requires ValidGrouping(g) && AreRuns(le, g, runs) && i < |runs|
    ensures Select(g, Flatten(runs), RunKey(g, runs[i])) == runs[i]
  {
    hide KeyOf;
    var init, last, k := runs[..|runs| - 1], runs[|runs| - 1], RunKey(g, runs[i]);
    SelectConcat(g, Flatten(init), last, k);
    SelectAllOrNothing(g, last, k);
    assert IsRun(g, last);
    if i == |runs| - 1 {
      forall e | e in Flatten(init)
        ensures KeyOf(g, e) != k
      {
        FlattenMembers(init);
        var j :| 0 <= j < |init| && e in init[j];
        assert IsRun(g, runs[j]) && init[j] == runs[j];
        assert RunKey(g, runs[j]) != RunKey(g, runs[i]);
      }
      SelectAllOrNothing(g, Flatten(init), k);
    } else {
      RunIsSelection(le, g, init, i);
      assert RunKey(g, last) != k;
    }
  }

  // ----- What a summary is -----

  ghost predicate ValidEntries(es: seq<Entry>) {
    forall e :: e in es ==> ValidDates(e)
  }

  /** The runs of a report's sorted entries. */
  function GroupsOf(le: Order, g: Grouping, es: seq<Entry>): seq<seq<Entry>>
    requires ValidGrouping(g)
  {
    Runs(g, SortByKey(le, g, es))
  }

  lemma GroupsAre(le: Order, g: Grouping, es: seq<Entry>)
    requires ValidGrouping(g) && TotalOrder(le)
    ensures AreRuns(le, g, GroupsOf(le, g, es))
    ensures multiset(Flatten(GroupsOf(le, g, es))) == multiset(es)
  {
    var sorted := SortByKey(le, g, es);
    SortIsByKey(le, g, es);
    RunsAre(le, g, sorted);
    RunsFlatten(g, sorted);
  }

  /**
    The summaries of a report: their keys are strictly ascending, every entry's key is among
    them, and each is the sum of exactly the entries with its key.
   */
  lemma SummariesAre(le: Order, g: Grouping, es: seq<Entry>)
    requires ValidGrouping(g) && TotalOrder(le) && ValidEntries(es)
    ensures var groups := GroupsOf(le, g, es);
            && |Summed(le, g, es)| == |groups|
            && (forall i :: 0 <= i < |groups| ==>
                  groups[i] != [] && Summed(le, g, es)[i] == Sum(Select(g, es, RunKey(g, groups[i]))))
            && (forall i, j :: 0 <= i < j < |groups| ==>
                  le(RunKey(g, groups[i]), RunKey(g, groups[j])) && RunKey(g, groups[i]) != RunKey(g, groups[j]))
            && (forall e :: e in es ==> exists i :: 0 <= i < |groups| && RunKey(g, groups[i]) == KeyOf(g, e))
  {
    hide KeyOf, SortByKey, Runs;
    var groups := GroupsOf(le, g, es);
    var sorted := Flatten(groups);
    GroupsAre(le, g, es);
    forall i | 0 <= i < |groups|
      ensures Sum(groups[i]) == Sum(Select(g, es, RunKey(g, groups[i])))
    {
      var k := RunKey(g, groups[i]);
      RunIsSelection(le, g, groups, i);
      SelectOfPermutation(g, es, sorted, k);
      SelectMembers(g, es, k);
      SumOfPermutation(Select(g, es, k), groups[i]);
    }
    forall e | e in es
      ensures exists i :: 0 <= i < |groups| && RunKey(g, groups[i]) == KeyOf(g, e)
    {
      KeyHasGroup(le, g, es, groups, e);
    }
  }

  lemma KeyHasGroup(le: Order, g: Grouping, es: seq<Entry>, groups: seq<seq<Entry>>, e: Entry)
    requires ValidGrouping(g) && AreRuns(le, g, groups) && multiset(Flatten(groups)) == multiset(es) && e in es
    ensures exists i :: 0 <= i < |groups| && RunKey(g, groups[i]) == KeyOf(g, e)
  {
    SameElements(es, Flatten(groups));
    FlattenMembers(groups);
    var i :| 0 <= i < |groups| && e in groups[i];
    assert IsRun(g, groups[i]);
    var j :| 0 <= j < |groups[i]| && groups[i][j] == e;
    assert RunKey(g, groups[i]) == KeyOf(g, e);
  }
}
