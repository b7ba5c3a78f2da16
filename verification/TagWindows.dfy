/**
  Taking the recent part of a daily summary is summarizing the recent entries: a selection of
  entries by components and start date commutes with summing them up by day.
 */
module TagWindows {
  import opened ReportEntries
  import opened ReportGroups
  import opened ReportPeriods
  import opened ReportRegrouping
  import opened TagUpdateCascade

  // ----- Selecting by key -----

  type Choice = Key -> bool

  function Chosen(g: Grouping, es: seq<Entry>, choice: Choice): seq<Entry>
    requires ValidGrouping(g)
  {
    if es == [] then []
    else
      var last := es[|es| - 1];
      Chosen(g, es[..|es| - 1], choice) + if choice(KeyOf(g, last)) then [last] else []
  }

  function ChosenKeys(keys: seq<Key>, choice: Choice): seq<Key> {
    if keys == [] then []
    else ChosenKeys(keys[..|keys| - 1], choice) + if choice(keys[|keys| - 1]) then [keys[|keys| - 1]] else []
  }

  lemma {:induction false} ChosenMembers(g: Grouping, es: seq<Entry>, choice: Choice)
    requires ValidGrouping(g)
    ensures forall e :: e in Chosen(g, es, choice) <==> e in es && choice(KeyOf(g, e))
  {
    if es != [] {
      hide KeyOf;
      ChosenMembers(g, es[..|es| - 1], choice);
      assert es == es[..|es| - 1] + [es[|es| - 1]];
    }
  }

  lemma {:induction false} ChosenKeysAscend(le: Order, keys: seq<Key>, choice: Choice)
    requires Ascending(le, keys)
    ensures Ascending(le, ChosenKeys(keys, choice))
    ensures forall k :: k in ChosenKeys(keys, choice) <==> k in keys && choice(k)
  {
    if keys != [] {
      var init, last := keys[..|keys| - 1], keys[|keys| - 1];
      ChosenKeysAscend(le, init, choice);
      assert keys == init + [last];
      var kept := ChosenKeys(init, choice);
      forall i | 0 <= i < |kept|
        ensures le(kept[i], last) && kept[i] != last
      {
        assert kept[i] in init;
        var j :| 0 <= j < |init| && init[j] == kept[i];
        assert le(keys[j], keys[|init|]) && keys[j] != keys[|init|];
      }
    }
  }

  lemma {:induction false} SelectChosen(g: Grouping, es: seq<Entry>, choice: Choice, k: Key)
    requires ValidGrouping(g) && choice(k)
    ensures Select(g, Chosen(g, es, choice), k) == Select(g, es, k)
  {
    if es != [] {
      hide KeyOf;
      var init, last := es[..|es| - 1], es[|es| - 1];
      var before := Chosen(g, init, choice);
      SelectChosen(g, init, choice, k);
      if choice(KeyOf(g, last)) {
        assert (before + [last])[..|before|] == before;
      } else {
        assert before + [] == before;
      }
    }
  }

  // ----- Sums by key -----

  function SumsBy(g: Grouping, es: seq<Entry>, keys: seq<Key>): (r: seq<Entry>)
    requires ValidGrouping(g)
    ensures |r| == |keys| && forall i :: 0 <= i < |keys| ==> r[i] == Sum(Select(g, es, keys[i]))
  {
    seq(|keys|, i requires 0 <= i < |keys| => Sum(Select(g, es, keys[i])))
  }

  ghost function KeysIn(le: Order, g: Grouping, es: seq<Entry>): seq<Key>
    requires ValidGrouping(g) && TotalOrder(le)
  {
    GroupKeys(le, g, es);
    KeysOf(g, GroupsOf(le, g, es))
  }

  lemma KeysInAre(le: Order, g: Grouping, es: seq<Entry>)
    requires ValidGrouping(g) && TotalOrder(le)
    ensures Ascending(le, KeysIn(le, g, es)) && forall k :: k in KeysIn(le, g, es) <==> HasKey(g, es, k)
  {
    hide KeyOf, GroupsOf, Ascending, HasKey, TotalOrder;
    GroupKeys(le, g, es);
  }

  lemma SummedIsSumsBy(le: Order, g: Grouping, es: seq<Entry>)
    requires ValidGrouping(g) && TotalOrder(le) && ValidEntries(es)
    ensures Summed(le, g, es) == SumsBy(g, es, KeysIn(le, g, es))
  {
    hide KeyOf, GroupsOf, Sum, Select, TotalOrder, ValidEntries, Summed;
    SummariesAre(le, g, es);
  }

  lemma KeyOfSelection(g: Grouping, es: seq<Entry>, k: Key)
    requires g.period == Daily && ValidEntries(es) && HasKey(g, es, k)
    ensures KeyOf(g, Sum(Select(g, es, k))) == k
  {
    hide Sum;
    var run := Select(g, es, k);
    SelectMembers(g, es, k);
    var e :| e in es && KeyOf(g, e) == k;
    assert e in run;
    hide KeyOf, Select;
    assert forall i :: 0 <= i < |run| ==> run[i] in run;
    CoarseKeyOfSum(g, g, run, 0);
  }

  lemma {:induction false} ChosenSums(g: Grouping, es: seq<Entry>, keys: seq<Key>, choice: Choice)
    requires g.period == Daily && ValidEntries(es) && forall k :: k in keys ==> HasKey(g, es, k)
    ensures Chosen(g, SumsBy(g, es, keys), choice) == SumsBy(g, es, ChosenKeys(keys, choice))
  {
    hide KeyOf, Sum, Select, HasKey, ValidEntries;
    if keys != [] {
      var init, last := keys[..|keys| - 1], keys[|keys| - 1];
      assert last in keys && forall k :: k in init ==> k in keys;
      ChosenSums(g, es, init, choice);
      KeyOfSelection(g, es, last);
      assert SumsBy(g, es, keys)[..|keys| - 1] == SumsBy(g, es, init);
    }
  }

  lemma ChosenKeysIn(le: Order, g: Grouping, es: seq<Entry>, choice: Choice)
    requires ValidGrouping(g) && TotalOrder(le)
    ensures KeysIn(le, g, Chosen(g, es, choice)) == ChosenKeys(KeysIn(le, g, es), choice)
  {
    hide KeyOf, KeysIn, Chosen, ChosenKeys, TotalOrder, Ascending;
    var few := Chosen(g, es, choice);
    KeysInAre(le, g, es);
    KeysInAre(le, g, few);
    ChosenMembers(g, es, choice);
    ChosenKeysAscend(le, KeysIn(le, g, es), choice);
    AscendingUnique(le, KeysIn(le, g, few), ChosenKeys(KeysIn(le, g, es), choice));
  }

  /** Summing up by day and then selecting is selecting and then summing up. */
  lemma ChosenSummed(le: Order, g: Grouping, es: seq<Entry>, choice: Choice)
    requires g.period == Daily && TotalOrder(le) && ValidEntries(es)
    ensures Chosen(g, Summed(le, g, es), choice) == Summed(le, g, Chosen(g, es, choice))
    ensures ValidEntries(Chosen(g, es, choice))
  {
    ChosenMembers(g, es, choice);
    hide KeyOf, Sum, Select, TotalOrder, ValidEntries, Summed, KeysIn, Chosen, ChosenKeys;
    var few, keys := Chosen(g, es, choice), KeysIn(le, g, es);
    SummedIsSumsBy(le, g, es);
    SummedIsSumsBy(le, g, few);
    KeysInAre(le, g, es);
    ChosenSums(g, es, keys, choice);
    ChosenKeysIn(le, g, es, choice);
    ChosenKeysAscend(le, keys, choice);
    var left := ChosenKeys(keys, choice);
    forall i | 0 <= i < |left|
      ensures Select(g, few, left[i]) == Select(g, es, left[i])
    {
      assert left[i] in left;
      SelectChosen(g, es, choice, left[i]);
    }
  }

  /** So a summary without periods of the selected part of a daily summary is that of the selected entries. */
  lemma SummaryOfChosen(le: Order, components: seq<Component>, es: seq<Entry>, choice: Choice)
    requires TotalOrder(le) && ValidEntries(es)
    ensures var g := GroupingFor(components, EachDay, es);
            Summaries(le, components, NoPeriod, Chosen(g, DailySummary(le, components, es), choice)) ==
            Summaries(le, components, NoPeriod, Chosen(g, es, choice))
  {
    var g := GroupingFor(components, EachDay, es);
    var few, day := Chosen(g, es, choice), Chosen(g, DailySummary(le, components, es), choice);
    ChosenSummed(le, g, es, choice);
    var coarse := GroupingFor(components, NoPeriod, few);
    hide Summed, Chosen, ValidEntries, TotalOrder, FirstStart;
    RegroupingIsLossless(le, coarse, g, few);
    SummedDates(le, g, few);
  }

  // ----- Recent entries, and those whose combination ran -----

  function Since(es: seq<Entry>, day: int): seq<Entry> {
    if es == [] then []
    else Since(es[..|es| - 1], day) + if es[|es| - 1].startDate >= day then [es[|es| - 1]] else []
  }

  function Combinations(components: seq<Component>, es: seq<Entry>): set<seq<Value>> {
    set i | 0 <= i < |es| :: Values(components, es[i])
  }

  /** The entries since `day` with one of these combinations. */
  function SinceAmong(components: seq<Component>, es: seq<Entry>, day: int, ran: set<seq<Value>>): seq<Entry> {
    if es == [] then []
    else
      var last := es[|es| - 1];
      SinceAmong(components, es[..|es| - 1], day, ran)
      + if last.startDate >= day && Values(components, last) in ran then [last] else []
  }

  lemma {:induction false} SinceIsChosen(g: Grouping, es: seq<Entry>, day: int)
    requires g.period == Daily
    ensures Since(es, day) == Chosen(g, es, (k: Key) => k.period >= day)
  {
    if es != [] {
      SinceIsChosen(g, es[..|es| - 1], day);
    }
  }

  lemma {:induction false} SinceAmongIsChosen(g: Grouping, es: seq<Entry>, day: int, ran: set<seq<Value>>)
    requires g.period == Daily
    ensures SinceAmong(g.components, es, day, ran) == Chosen(g, es, (k: Key) => k.period >= day && k.values in ran)
  {
    if es != [] {
      SinceAmongIsChosen(g, es[..|es| - 1], day, ran);
    }
  }

  /** The summaries of the recent part of a level are those of the recent entries of the report. */
  lemma RecentSummaries(le: Order, components: seq<Component>, es: seq<Entry>, day: int)
    requires TotalOrder(le) && ValidEntries(es)
    ensures Summaries(le, components, NoPeriod, Since(DailySummary(le, components, es), day)) ==
            Summaries(le, components, NoPeriod, Since(es, day))
  {
    var g := GroupingFor(components, EachDay, es);
    hide Summaries, DailySummary, Since, Chosen, TotalOrder, ValidEntries, FirstStart;
    SinceIsChosen(g, es, day);
    SinceIsChosen(g, DailySummary(le, components, es), day);
    SummaryOfChosen(le, components, es, (k: Key) => k.period >= day);
  }

  lemma RecentSummariesAmong(le: Order, components: seq<Component>, es: seq<Entry>, day: int, ran: set<seq<Value>>)
    requires TotalOrder(le) && ValidEntries(es)
    ensures Summaries(le, components, NoPeriod, SinceAmong(components, DailySummary(le, components, es), day, ran)) ==
            Summaries(le, components, NoPeriod, SinceAmong(components, es, day, ran))
  {
    var g := GroupingFor(components, EachDay, es);
    hide Summaries, DailySummary, SinceAmong, Chosen, TotalOrder, ValidEntries, FirstStart;
    SinceAmongIsChosen(g, es, day, ran);
    SinceAmongIsChosen(g, DailySummary(le, components, es), day, ran);
    SummaryOfChosen(le, components, es, (k: Key) => k.period >= day && k.values in ran);
  }

  lemma CombinationsOfSummed(le: Order, g: Grouping, es: seq<Entry>)
    requires g.period == Daily && TotalOrder(le) && ValidEntries(es)
    ensures Combinations(g.components, Summed(le, g, es)) == Combinations(g.components, es)
  {
    hide Sum, Select, TotalOrder, ValidEntries, Summed, KeysIn;
    var sums, keys := Summed(le, g, es), KeysIn(le, g, es);
    SummedIsSumsBy(le, g, es);
    KeysInAre(le, g, es);
    forall i | 0 <= i < |keys|
      ensures KeyOf(g, sums[i]) == keys[i] && Values(g.components, sums[i]) in Combinations(g.components, es)
    {
      assert keys[i] in keys;
      KeyOfSelection(g, es, keys[i]);
      var e :| e in es && KeyOf(g, e) == keys[i];
      var j :| 0 <= j < |es| && es[j] == e;
      assert Values(g.components, sums[i]) == Values(g.components, es[j]);
    }
    forall j | 0 <= j < |es|
      ensures Values(g.components, es[j]) in Combinations(g.components, sums)
    {
      assert es[j] in es && HasKey(g, es, KeyOf(g, es[j]));
      var i :| 0 <= i < |keys| && keys[i] == KeyOf(g, es[j]);
      assert Values(g.components, sums[i]) == Values(g.components, es[j]);
    }
  }

  /** What ran recently according to a level ran recently according to the report. */
  lemma RecentCombinations(le: Order, components: seq<Component>, es: seq<Entry>, day: int)
    requires TotalOrder(le) && ValidEntries(es)
    ensures Combinations(components, Since(DailySummary(le, components, es), day)) == Combinations(components, Since(es, day))
  {
    var g := GroupingFor(components, EachDay, es);
    var choice := (k: Key) => k.period >= day;
    SinceIsChosen(g, es, day);
    SinceIsChosen(g, DailySummary(le, components, es), day);
    ChosenSummed(le, g, es, choice);
    hide Summed, Chosen, Since, Combinations, TotalOrder, ValidEntries, FirstStart;
    CombinationsOfSummed(le, g, Since(es, day));
  }
}
