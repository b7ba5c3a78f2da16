/**
  Which entries a summary stands for, told without keys: those with its components that start in
  its period, and all of them when there is no period.
 */
module ReportCombinations {
  import opened Options
  import opened ReportEntries
  import opened ReportGroups
  import opened ReportPeriods

  /** The days from `first` up to, and without, `end`. */
  datatype Span = Span(first: int, end: int)

  predicate Starts(e: Entry, span: Option<Span>) {
    span.Some? ==> span.value.first <= e.startDate < span.value.end
  }

  /** The entries with these components that start in the span, or at all. */
  function Matching(components: seq<Component>, es: seq<Entry>, values: seq<Value>, span: Option<Span>): seq<Entry> {
    if es == [] then []
    else
      var last := es[|es| - 1];
      Matching(components, es[..|es| - 1], values, span)
      + if Values(components, last) == values && Starts(last, span) then [last] else []
  }

  /** The span of the period that starts on `first`. */
  function SpanOf(period: TimePeriod, first: int): Option<Span> {
    if period.NoPeriod? then None else Some(Span(first, first + Size(period)))
  }

  // ----- Two dates are in the same period -----

  lemma SamePeriodIff(components: seq<Component>, period: TimePeriod, es: seq<Entry>, d0: int, d: int)
    requires ValidPeriod(period)
    ensures var g := GroupingFor(components, period, es);
            PeriodStart(g, d) == PeriodStart(g, d0) <==>
            period.NoPeriod? || PeriodStart(g, d0) <= d < PeriodStart(g, d0) + Size(period)
  {
    var g := GroupingFor(components, period, es);
    if !period.NoPeriod? {
      DateInPeriod(components, period, es, d0);
      DateInPeriod(components, period, es, d);
      if !period.EachDay? {
        var p, q := PeriodStart(g, d0), PeriodStart(g, d);
        hide PeriodStart, Aligned;
        if p < q {
          PeriodsApart(Origin(g), Size(period), p, q);
        } else if q < p {
          PeriodsApart(Origin(g), Size(period), q, p);
        }
      }
    }
  }

  /** Selecting by the key of an entry is selecting by components and period. */
  lemma {:induction false} SelectIsMatching(components: seq<Component>, period: TimePeriod, all: seq<Entry>, es: seq<Entry>,
                                            e0: Entry)
    requires ValidPeriod(period)
    ensures var g := GroupingFor(components, period, all);
            var k := KeyOf(g, e0);
            Select(g, es, k) == Matching(components, es, k.values, SpanOf(period, k.period))
  {
    if es != [] {
      var last := es[|es| - 1];
      SelectIsMatching(components, period, all, es[..|es| - 1], e0);
      SamePeriodIff(components, period, all, e0.startDate, last.startDate);
      hide PeriodStart, Values, Size, FirstStart;
    }
  }

  // ----- Every summary -----

  /** The day that the period of summary `i` starts on; any day without a period. */
  ghost function FirstDayOf(le: Order, components: seq<Component>, period: TimePeriod, es: seq<Entry>, i: nat): int
    requires ValidPeriod(period)
  {
    var g := GroupingFor(components, period, es);
    var groups := GroupsOf(le, g, es);
    if i < |groups| && groups[i] != [] then RunKey(g, groups[i]).period else 0
  }

  /**
    A summary is the sum of exactly the entries with its components that start in its period; only
    the dates of weekly and longer summaries are those of the period.
   */
  lemma SummaryIsSumOfMatching(le: Order, components: seq<Component>, period: TimePeriod, es: seq<Entry>, i: nat)
    requires TotalOrder(le) && ValidPeriod(period) && ValidEntries(es)
    requires i < |Summaries(le, components, period, es)|
    ensures var s, first := Summaries(le, components, period, es)[i], FirstDayOf(le, components, period, es, i);
            var sum := Sum(Matching(components, es, Values(components, s), SpanOf(period, first)));
            s.(startDate := sum.startDate, endDate := sum.endDate) == sum && (Size(period) <= 1 ==> s == sum)
  {
    hide Summed, GroupsOf, IsRun, KeyOf, PeriodStart, Sum, ValidEntries, TotalOrder, Values, Select, FirstStart, LastEnd;
    var g := GroupingFor(components, period, es);
    OneSummaryPerGroup(le, components, period, es);
    assert |Summed(le, g, es)| == |Summaries(le, components, period, es)|;
    SummedAt(le, g, es, i);
    SummariesAre(le, g, es);
    var run := GroupsOf(le, g, es)[i];
    SelectIsMatching(components, period, es, es, run[0]);
    SumKeepsKey(g, run);
    SameComponents(components, Summaries(le, components, period, es)[i], Summed(le, g, es)[i]);
  }

  lemma SummaryValues(le: Order, components: seq<Component>, period: TimePeriod, es: seq<Entry>, i: nat)
    requires TotalOrder(le) && ValidPeriod(period) && ValidEntries(es)
    requires i < |Summaries(le, components, period, es)|
    ensures var g := GroupingFor(components, period, es);
            && i < |GroupsOf(le, g, es)| && GroupsOf(le, g, es)[i] != []
            && Values(components, Summaries(le, components, period, es)[i]) == RunKey(g, GroupsOf(le, g, es)[i]).values
            && FirstDayOf(le, components, period, es, i) == RunKey(g, GroupsOf(le, g, es)[i]).period
  {
    hide Summed, GroupsOf, IsRun, KeyOf, PeriodStart, Sum, ValidEntries, TotalOrder, Values, FirstStart, LastEnd;
    var g := GroupingFor(components, period, es);
    OneSummaryPerGroup(le, components, period, es);
    assert |Summed(le, g, es)| == |Summaries(le, components, period, es)|;
    SummedAt(le, g, es, i);
    SumKeepsKey(g, GroupsOf(le, g, es)[i]);
    SameComponents(components, Summaries(le, components, period, es)[i], Summed(le, g, es)[i]);
  }

  /** No two summaries have both the same components and the same period. */
  lemma SummariesDiffer(le: Order, components: seq<Component>, period: TimePeriod, es: seq<Entry>, i: nat, j: nat)
    requires TotalOrder(le) && ValidPeriod(period) && ValidEntries(es)
    requires i < j < |Summaries(le, components, period, es)|
    ensures var s := Summaries(le, components, period, es);
            Values(components, s[i]) == Values(components, s[j]) ==>
              FirstDayOf(le, components, period, es, i) != FirstDayOf(le, components, period, es, j)
  {
    hide Summaries, GroupsOf, KeyOf, TotalOrder, ValidEntries, Values, FirstDayOf, AreRuns;
    var g := GroupingFor(components, period, es);
    SummaryValues(le, components, period, es, i);
    SummaryValues(le, components, period, es, j);
    GroupsAre(le, g, es);
    KeysDiffer(le, g, GroupsOf(le, g, es), i, j);
  }

  // ----- Without a period, and day by day -----

  /**
    Without a period there is exactly one summary for each combination of components that occurs,
    and it sums up all entries with that combination, whatever days they are from.
   */
  lemma WithoutPeriodDaysAreJoined(le: Order, components: seq<Component>, es: seq<Entry>, i: nat, j: nat)
    requires TotalOrder(le) && ValidEntries(es)
    requires i < j < |Summaries(le, components, NoPeriod, es)|
    ensures var s := Summaries(le, components, NoPeriod, es);
            Values(components, s[i]) != Values(components, s[j])
  {
    hide Summaries, TotalOrder, ValidEntries, Values, GroupsOf, KeyOf;
    SummariesDiffer(le, components, NoPeriod, es, i, j);
    WholeStartsAtOnce(le, components, es, i);
    WholeStartsAtOnce(le, components, es, j);
  }

  lemma WholeStartsAtOnce(le: Order, components: seq<Component>, es: seq<Entry>, i: nat)
    ensures FirstDayOf(le, components, NoPeriod, es, i) == 0
  {
    hide GroupsOf, Values;
  }

  /** Every combination of components that an entry has is that of a summary; without a period, of just one. */
  lemma CombinationOccurs(le: Order, components: seq<Component>, period: TimePeriod, es: seq<Entry>, e: Entry) returns (i: nat)
    requires TotalOrder(le) && ValidPeriod(period) && ValidEntries(es) && e in es
    ensures i < |Summaries(le, components, period, es)|
    ensures Values(components, Summaries(le, components, period, es)[i]) == Values(components, e)
    ensures Starts(e, SpanOf(period, FirstDayOf(le, components, period, es, i)))
  {
    hide Summaries, GroupsOf, TotalOrder, ValidEntries, Values, PeriodStart, Size, AreRuns;
    var g := GroupingFor(components, period, es);
    var groups := GroupsOf(le, g, es);
    GroupsAre(le, g, es);
    KeyHasGroup(le, g, es, groups, e);
    RunsAreNonempty(le, g, groups);
    i :| 0 <= i < |groups| && RunKey(g, groups[i]) == KeyOf(g, e);
    OneSummaryPerGroup(le, components, period, es);
    SummaryValues(le, components, period, es, i);
    SamePeriodIff(components, period, es, e.startDate, e.startDate);
  }

  /** A daily summary is of one day: it and every entry that it sums up start on it. */
  lemma DailyIsOfOneDay(le: Order, components: seq<Component>, es: seq<Entry>, i: nat)
    requires TotalOrder(le) && ValidEntries(es) && i < |Summaries(le, components, EachDay, es)|
    ensures FirstDayOf(le, components, EachDay, es, i) == Summaries(le, components, EachDay, es)[i].startDate
  {
    hide Summed, GroupsOf, IsRun, Sum, ValidEntries, TotalOrder, Values, FirstStart, LastEnd;
    var g := GroupingFor(components, EachDay, es);
    OneSummaryPerGroup(le, components, EachDay, es);
    assert |Summed(le, g, es)| == |Summaries(le, components, EachDay, es)|;
    SummedAt(le, g, es, i);
    SumKeepsKey(g, GroupsOf(le, g, es)[i]);
  }

  /** A summary of n days starts a multiple of n days after the report, clamped to the report. */
  lemma DaysSummarySpansItsPeriod(le: Order, components: seq<Component>, n: int, es: seq<Entry>, i: nat)
    requires TotalOrder(le) && ValidEntries(es) && n > 1 && i < |Summaries(le, components, EachDays(n), es)|
    ensures var s, first := Summaries(le, components, EachDays(n), es)[i], FirstDayOf(le, components, EachDays(n), es, i);
            && Aligned(FirstStart(es), n, first)
            && s.startDate == Max(first, FirstStart(es)) && s.endDate == Min(first + n - 1, LastEnd(es))
  {
    var g := GroupingFor(components, EachDays(n), es);
    hide Summaries, GroupsOf, TotalOrder, ValidEntries, Values, PeriodStart, FirstStart, LastEnd, Aligned;
    ClampedSummary(le, components, EachDays(n), es, i);
    SummaryValues(le, components, EachDays(n), es, i);
    DateInPeriod(components, EachDays(n), es, GroupsOf(le, g, es)[i][0].startDate);
  }
}
