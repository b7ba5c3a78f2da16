/** Summaries by week or by a number of days: every entry is counted once, in a period of its own. */
module ReportPeriods {
  import opened ReportEntries
  import opened ReportGroups
  import opened ReportRegrouping

  /** The first day of a week: of the report's first week, or a given one. */
  datatype WeekStart = FirstDay | Sunday | Monday | SameAs(date: int)

  /** `Unusable` is a name that is neither daily nor weekly, or a time that is not a whole number of days. */
  datatype TimePeriod = NoPeriod | EachDay | EachWeek(start: WeekStart) | EachDays(days: int) | Unusable

  function StartWeekday(start: WeekStart, reportStart: int): int {
    match start
    case FirstDay => Weekday(reportStart)
    case Sunday => 6
    case Monday => 0
    case SameAs(date) => Weekday(date)
  }

  function GroupingFor(components: seq<Component>, period: TimePeriod, es: seq<Entry>): Grouping {
    var anchor := FirstStart(es);
    Grouping(components,
             match period
             case EachDay => Daily
             case EachWeek(start) => Weekly(StartWeekday(start, anchor))
             case EachDays(n) => Days(n)
             case _ => Whole,
             anchor)
  }

  predicate ValidPeriod(period: TimePeriod) {
    !period.Unusable? && (period.EachDays? ==> period.days > 0)
  }

  /** The number of days in a period; a report as a whole counts as none. */
  function Size(period: TimePeriod): int {
    match period
    case EachDay => 1
    case EachWeek(_) => 7
    case EachDays(n) => n
    case _ => 0
  }

  /** A summary's dates as those of its period, clamped to the report. */
  function Clamped(g: Grouping, size: int, es: seq<Entry>, s: Entry): Entry
    requires ValidGrouping(g)
  {
    var start := PeriodStart(g, s.startDate);
    s.(startDate := Max(start, FirstStart(es)), endDate := Min(start + size - 1, LastEnd(es)))
  }

  function Summaries(le: Order, components: seq<Component>, period: TimePeriod, es: seq<Entry>): (r: seq<Entry>)
    requires ValidPeriod(period)
  {
    var g := GroupingFor(components, period, es);
    var sums := Summed(le, g, es);
    if Size(period) > 1 then seq(|sums|, i requires 0 <= i < |sums| => Clamped(g, Size(period), es, sums[i])) else sums
  }

  datatype Result = Ok(summaries: seq<Entry>) | ValueError

  /** A report has entries; an unusable period or one that is not a positive number of days is an error. */
  method SummarizeBy(le: Order, components: seq<Component>, period: TimePeriod, es: seq<Entry>) returns (r: Result)
    requires es != []
    ensures r == if ValidPeriod(period) then Ok(Summaries(le, components, period, es)) else ValueError
  {
    if period.Unusable? || (period.EachDays? && period.days <= 0) {
      return ValueError;
    }
    var g := GroupingFor(components, period, es);
    var groups := Runs(g, SortByKey(le, g, es));
    var summed: seq<Entry> := [];
    for i := 0 to |groups|
      invariant summed == Sums(groups)[..i]
    {
      var s := SumEntries(groups[i]);
      summed := summed + [s];
    }
    ghost var sums := summed;
    assert sums == Summed(le, g, es);
    if Size(period) > 1 {
      for i := 0 to |summed|
        invariant |summed| == |sums|
        invariant forall j :: 0 <= j < i ==> summed[j] == Clamped(g, Size(period), es, sums[j])
        invariant forall j :: i <= j < |sums| ==> summed[j] == sums[j]
      {
        summed := summed[i := Clamped(g, Size(period), es, summed[i])];
      }
    }
    r := Ok(summed);
    assert summed == Summaries(le, components, period, es);
  }

  // ----- Periods -----

  /** Period starts lie a whole number of periods from a fixed day. */
  ghost predicate Aligned(origin: int, size: int, p: int) {
    exists q :: p == origin + size * q
  }

  ghost function Origin(g: Grouping): int {
    if g.period.Weekly? then g.period.startWeekday + 1 else g.anchor
  }

  /** Each date lies in the period that starts at `PeriodStart`. */
  lemma DateInPeriod(components: seq<Component>, period: TimePeriod, es: seq<Entry>, d: int)
    requires ValidPeriod(period) && Size(period) >= 1
    ensures var g := GroupingFor(components, period, es);
            PeriodStart(g, d) <= d < PeriodStart(g, d) + Size(period)
    ensures var g := GroupingFor(components, period, es);
            period.EachWeek? || period.EachDays? ==> Aligned(Origin(g), Size(period), PeriodStart(g, d))
  {
    var g := GroupingFor(components, period, es);
    match g.period
    case Whole =>
    case Daily =>
    case Weekly(w) =>
      var q := (d + 6 - w) / 7;
      assert PeriodStart(g, d) == (w + 1) + 7 * (q - 1);
    case Days(n) =>
      var q := (d - g.anchor) / n;
      assert d - g.anchor == n * q + (d - g.anchor) % n;
      assert PeriodStart(g, d) == g.anchor + n * q;
  }

  lemma PeriodsApart(origin: int, size: int, p: int, q: int)
    requires size > 0 && Aligned(origin, size, p) && Aligned(origin, size, q) && p < q
    ensures p + size <= q
  {
    var i :| p == origin + size * i;
    var j :| q == origin + size * j;
    if j <= i {
      MultiplyMonotonic(size, j, i);
    } else {
      MultiplyMonotonic(size, i + 1, j);
    }
  }

  lemma MultiplyMonotonic(size: int, i: int, j: int)
    requires size > 0 && i <= j
    ensures size * i <= size * j
  {
  }

  // ----- Tiling -----

  /** Counts are kept, entries fall into the range of their summary, and ranges of like components are apart. */
  ghost predicate Tiles(components: seq<Component>, es: seq<Entry>, summaries: seq<Entry>) {
    && Passes(summaries) == Passes(es) && Fails(summaries) == Fails(es)
    && (forall e :: e in es ==> Covered(components, e, summaries))
    && Apart(components, summaries)
  }

  ghost predicate Covered(components: seq<Component>, e: Entry, summaries: seq<Entry>) {
    exists i :: 0 <= i < |summaries|
                && Values(components, summaries[i]) == Values(components, e)
                && summaries[i].startDate <= e.startDate <= summaries[i].endDate
  }

  ghost predicate Apart(components: seq<Component>, summaries: seq<Entry>) {
    forall i, j :: 0 <= i < j < |summaries| && Values(components, summaries[i]) == Values(components, summaries[j]) ==>
      summaries[i].endDate < summaries[j].startDate || summaries[j].endDate < summaries[i].startDate
  }

  ghost predicate WellDated(es: seq<Entry>) {
    es != [] && forall e :: e in es ==> ValidDates(e) && e.startDate <= e.endDate
  }

  /** A group's sum has the components of the group, and its start date lies in the group's period. */
  lemma SumKeepsKey(g: Grouping, run: seq<Entry>)
    requires ValidGrouping(g) && IsRun(g, run) && ValidEntries(run)
    ensures Values(g.components, Sum(run)) == RunKey(g, run).values
    ensures PeriodStart(g, Sum(run).startDate) == RunKey(g, run).period
  {
    DatesBounded(run);
    var e :| e in run && e.startDate == FirstStart(run);
    var m :| 0 <= m < |run| && run[m] == e;
    assert KeyOf(g, run[m]) == RunKey(g, run);
    forall i | 0 <= i < |g.components|
      ensures Field(Sum(run), g.components[i]) == Field(run[0], g.components[i])
    {
      FineFieldIsCommon(g, run, g.components[i], 0);
    }
  }

  /** What the summary of group `i` looks like. */
  lemma ClampedSummary(le: Order, components: seq<Component>, period: TimePeriod, es: seq<Entry>, i: nat)
    requires TotalOrder(le) && ValidPeriod(period) && Size(period) > 1 && ValidEntries(es)
    requires i < |Summaries(le, components, period, es)|
    ensures var g := GroupingFor(components, period, es);
            var s := Summaries(le, components, period, es)[i];
            && i < |GroupsOf(le, g, es)| && GroupsOf(le, g, es)[i] != []
            && var k := RunKey(g, GroupsOf(le, g, es)[i]);
               && Values(components, s) == k.values
               && s.startDate == Max(k.period, FirstStart(es))
               && s.endDate == Min(k.period + Size(period) - 1, LastEnd(es))
  {
    hide Summed, GroupsOf, RunKey, Sum, FirstStart, LastEnd, TotalOrder, ValidEntries, IsRun, Clamped, Values;
    var g := GroupingFor(components, period, es);
    SummedAt(le, g, es, i);
    ClampedSum(g, Size(period), es, GroupsOf(le, g, es)[i]);
  }

  lemma SummedAt(le: Order, g: Grouping, es: seq<Entry>, i: nat)
    requires TotalOrder(le) && ValidGrouping(g) && ValidEntries(es)
    requires i < |Summed(le, g, es)|
    ensures i < |GroupsOf(le, g, es)|
    ensures var run := GroupsOf(le, g, es)[i];
            run != [] && IsRun(g, run) && ValidEntries(run) && Summed(le, g, es)[i] == Sum(run)
  {
    hide Runs, SortByKey, Sum, KeyOf, TotalOrder;
    GroupsAre(le, g, es);
    GroupsValid(le, g, es);
    assert IsRun(g, GroupsOf(le, g, es)[i]);
  }

  lemma ClampedSum(g: Grouping, size: int, es: seq<Entry>, run: seq<Entry>)
    requires ValidGrouping(g) && IsRun(g, run) && ValidEntries(run)
    ensures var s, k := Clamped(g, size, es, Sum(run)), RunKey(g, run);
            && Values(g.components, s) == k.values
            && s.startDate == Max(k.period, FirstStart(es))
            && s.endDate == Min(k.period + size - 1, LastEnd(es))
  {
    SumKeepsKey(g, run);
    hide Sum, FirstStart, LastEnd;
    assert Values(g.components, Clamped(g, size, es, Sum(run))) == Values(g.components, Sum(run));
  }

  /** Ordinals of Mondays leave 1 when divided by 7: the calendar starts with one. */
  ghost predicate StartsWeek(start: WeekStart, reportStart: int, first: int) {
    match start
    case FirstDay => (first - reportStart) % 7 == 0
    case Sunday => first % 7 == 0
    case Monday => first % 7 == 1
    case SameAs(date) => (first - date) % 7 == 0
  }

  lemma WeekStartsOn(components: seq<Component>, start: WeekStart, es: seq<Entry>, d: int)
    ensures var g := GroupingFor(components, EachWeek(start), es);
            StartsWeek(start, FirstStart(es), PeriodStart(g, d))
  {
    hide FirstStart;
  }

  /** A weekly summary starts on the chosen day and spans seven days, unless the report starts later or ends sooner. */
  lemma WeeklySummarySpansAWeek(le: Order, components: seq<Component>, start: WeekStart, es: seq<Entry>, i: nat)
    requires TotalOrder(le) && ValidEntries(es) && i < |Summaries(le, components, EachWeek(start), es)|
    ensures var s := Summaries(le, components, EachWeek(start), es)[i];
            exists first :: StartsWeek(start, FirstStart(es), first)
                            && s.startDate == Max(first, FirstStart(es)) && s.endDate == Min(first + 6, LastEnd(es))
  {
    var g := GroupingFor(components, EachWeek(start), es);
    hide Summaries, GroupsOf, StartsWeek, PeriodStart, Max, Min, FirstStart, LastEnd;
    ClampedSummary(le, components, EachWeek(start), es, i);
    WeekStartsOn(components, start, es, GroupsOf(le, g, es)[i][0].startDate);
    assert StartsWeek(start, FirstStart(es), RunKey(g, GroupsOf(le, g, es)[i]).period);
  }

  lemma OneSummaryPerGroup(le: Order, components: seq<Component>, period: TimePeriod, es: seq<Entry>)
    requires ValidPeriod(period)
    ensures |Summaries(le, components, period, es)| == |GroupsOf(le, GroupingFor(components, period, es), es)|
  {
    hide Runs, SortByKey, Clamped;
  }

  lemma EntriesCovered(le: Order, components: seq<Component>, period: TimePeriod, es: seq<Entry>, e: Entry)
    requires TotalOrder(le) && ValidPeriod(period) && Size(period) > 1 && WellDated(es) && e in es
    ensures Covered(components, e, Summaries(le, components, period, es))
  {
    hide Summaries, GroupsOf, TotalOrder, IsRun, Values, PeriodStart, FirstStart, LastEnd, Aligned, Size;
    var g := GroupingFor(components, period, es);
    var groups, summaries := GroupsOf(le, g, es), Summaries(le, components, period, es);
    GroupsAre(le, g, es);
    KeyHasGroup(le, g, es, groups, e);
    RunsAreNonempty(le, g, groups);
    var i :| 0 <= i < |groups| && RunKey(g, groups[i]) == KeyOf(g, e);
    hide AreRuns;
    OneSummaryPerGroup(le, components, period, es);
    ClampedSummary(le, components, period, es, i);
    DateInPeriod(components, period, es, e.startDate);
    DatesBounded(es);
    assert Values(components, summaries[i]) == Values(components, e);
  }

  lemma RunsAreNonempty(le: Order, g: Grouping, groups: seq<seq<Entry>>)
    requires ValidGrouping(g) && AreRuns(le, g, groups)
    ensures forall i :: 0 <= i < |groups| ==> groups[i] != []
  {
    forall i | 0 <= i < |groups|
      ensures groups[i] != []
    {
      assert IsRun(g, groups[i]);
    }
  }

  /** Different groups have different keys. */
  lemma KeysDiffer(le: Order, g: Grouping, groups: seq<seq<Entry>>, i: nat, j: nat)
    requires ValidGrouping(g) && AreRuns(le, g, groups) && i < j < |groups|
    ensures groups[i] != [] && groups[j] != [] && RunKey(g, groups[i]) != RunKey(g, groups[j])
  {
    hide KeyOf;
    assert IsRun(g, groups[i]) && IsRun(g, groups[j]);
  }

  lemma PairApart(le: Order, components: seq<Component>, period: TimePeriod, es: seq<Entry>, i: nat, j: nat)
    requires TotalOrder(le) && ValidPeriod(period) && Size(period) > 1 && WellDated(es)
    requires i < j < |Summaries(le, components, period, es)|
    ensures var summaries := Summaries(le, components, period, es);
            Values(components, summaries[i]) == Values(components, summaries[j]) ==>
              summaries[i].endDate < summaries[j].startDate || summaries[j].endDate < summaries[i].startDate
  {
    hide Summaries, GroupsOf, TotalOrder, IsRun, AreRuns, Values, PeriodStart, FirstStart, LastEnd, Aligned, Origin;
    var g := GroupingFor(components, period, es);
    var groups := GroupsOf(le, g, es);
    GroupsAre(le, g, es);
    OneSummaryPerGroup(le, components, period, es);
    ClampedSummary(le, components, period, es, i);
    ClampedSummary(le, components, period, es, j);
    KeysDiffer(le, g, groups, i, j);
    DateInPeriod(components, period, es, groups[i][0].startDate);
    DateInPeriod(components, period, es, groups[j][0].startDate);
    var a, b := RunKey(g, groups[i]), RunKey(g, groups[j]);
    if a.period < b.period {
      PeriodsApart(Origin(g), Size(period), a.period, b.period);
    } else if b.period < a.period {
      PeriodsApart(Origin(g), Size(period), b.period, a.period);
    }
  }

  lemma SummariesApart(le: Order, components: seq<Component>, period: TimePeriod, es: seq<Entry>)
    requires TotalOrder(le) && ValidPeriod(period) && Size(period) > 1 && WellDated(es)
    ensures Apart(components, Summaries(le, components, period, es))
  {
    hide Summaries, Values, WellDated, TotalOrder;
    var summaries := Summaries(le, components, period, es);
    forall i, j | 0 <= i < j < |summaries| && Values(components, summaries[i]) == Values(components, summaries[j])
      ensures summaries[i].endDate < summaries[j].startDate || summaries[j].endDate < summaries[i].startDate
    {
      PairApart(le, components, period, es, i, j);
    }
  }

  lemma {:induction false} CountsIgnoreDates(a: seq<Entry>, b: seq<Entry>)
    requires |a| == |b| && forall i :: 0 <= i < |a| ==> a[i].numPass == b[i].numPass && a[i].numFail == b[i].numFail
    ensures Passes(a) == Passes(b) && Fails(a) == Fails(b)
  {
    if a != [] {
      CountsIgnoreDates(a[..|a| - 1], b[..|b| - 1]);
    }
  }

  /** Whatever the period, the summaries count every pass and every failure exactly once. */
  lemma CountsAreKept(le: Order, components: seq<Component>, period: TimePeriod, es: seq<Entry>)
    requires TotalOrder(le) && ValidPeriod(period) && ValidEntries(es)
    ensures Passes(Summaries(le, components, period, es)) == Passes(es)
    ensures Fails(Summaries(le, components, period, es)) == Fails(es)
  {
    var g := GroupingFor(components, period, es);
    SummedDates(le, g, es);
    CountsIgnoreDates(Summed(le, g, es), Summaries(le, components, period, es));
  }

  /** Weeks, and periods of more than one day, tile the report. */
  lemma PeriodsTile(le: Order, components: seq<Component>, period: TimePeriod, es: seq<Entry>)
    requires TotalOrder(le) && ValidPeriod(period) && Size(period) > 1 && WellDated(es)
    ensures Tiles(components, es, Summaries(le, components, period, es))
  {
    CountsAreKept(le, components, period, es);
    SummariesApart(le, components, period, es);
    forall e | e in es
      ensures Covered(components, e, Summaries(le, components, period, es))
    {
      EntriesCovered(le, components, period, es, e);
    }
  }

  // ----- One-day periods -----

  ghost predicate AlwaysTiles(le: Order, components: seq<Component>, period: TimePeriod)
    requires ValidPeriod(period)
  {
    forall es :: WellDated(es) ==> Tiles(components, es, Summaries(le, components, period, es))
  }

  /** Two entries of one component, a day apart, the first of which lasts three days. */
  const LongEntry := Entry(Name("t"), Name("k"), Name("v"), Name("d"), 10, 12, 1, 0)
  const NextDayEntry := LongEntry.(startDate := 11, endDate := 11)

  lemma WitnessWellDated()
    ensures WellDated([LongEntry, NextDayEntry])
  {
  }

  lemma OneDayKeys(g: Grouping)
    requires g.period == Days(1)
    ensures KeyOf(g, LongEntry) != KeyOf(g, NextDayEntry)
  {
  }

  lemma OneDaySummaries(le: Order, g: Grouping, es: seq<Entry>) returns (i: nat, j: nat)
    requires TotalOrder(le) && g.period == Days(1) && es == [LongEntry, NextDayEntry]
    ensures var sums := Summed(le, g, es);
            && i < |sums| && j < |sums|
            && sums[i].startDate == 10 && sums[i].endDate == 12 && sums[j].startDate == 11 && sums[j].endDate == 11
            && Values(g.components, sums[i]) == Values(g.components, sums[j])
  {
    OneDayKeys(g);
    hide Sum, Select, SortByKey, Runs, KeyOf, TotalOrder;
    var groups := GroupsOf(le, g, es);
    SummariesAre(le, g, es);
    assert LongEntry in es && NextDayEntry in es;
    i :| 0 <= i < |groups| && RunKey(g, groups[i]) == KeyOf(g, LongEntry);
    j :| 0 <= j < |groups| && RunKey(g, groups[j]) == KeyOf(g, NextDayEntry);
    OneDaySum(g, LongEntry, NextDayEntry);
    SameComponents(g.components, LongEntry, NextDayEntry);
  }

  lemma OverlapIsNotApart(components: seq<Component>, sums: seq<Entry>, i: nat, j: nat)
    requires i < |sums| && j < |sums| && Values(components, sums[i]) == Values(components, sums[j])
    requires sums[i].startDate < sums[j].startDate <= sums[j].endDate <= sums[i].endDate
    ensures !Apart(components, sums)
  {
    if i < j {
      assert !(sums[i].endDate < sums[j].startDate || sums[j].endDate < sums[i].startDate);
    } else {
      assert !(sums[j].endDate < sums[i].startDate || sums[i].endDate < sums[j].startDate);
    }
  }

  lemma OneDayGroups(le: Order, components: seq<Component>)
    requires TotalOrder(le)
    ensures !Apart(components, Summaries(le, components, EachDays(1), [LongEntry, NextDayEntry]))
  {
    var es := [LongEntry, NextDayEntry];
    var g := GroupingFor(components, EachDays(1), es);
    var i, j := OneDaySummaries(le, g, es);
    hide Summed, Apart;
    OverlapIsNotApart(components, Summed(le, g, es), i, j);
  }

  lemma SameComponents(components: seq<Component>, a: Entry, b: Entry)
    requires a.test == b.test && a.task == b.task && a.variant == b.variant && a.distro == b.distro
    ensures Values(components, a) == Values(components, b)
  {
  }

  lemma SelectOneOfTwo(g: Grouping, a: Entry, b: Entry)
    requires ValidGrouping(g) && KeyOf(g, a) != KeyOf(g, b)
    ensures Select(g, [a, b], KeyOf(g, a)) == [a] && Select(g, [a, b], KeyOf(g, b)) == [b]
  {
    hide KeyOf, Select;
    assert [a, b] == [a] + [b];
    SelectConcat(g, [a], [b], KeyOf(g, a));
    SelectConcat(g, [a], [b], KeyOf(g, b));
    SelectAllOrNothing(g, [a], KeyOf(g, a));
    SelectAllOrNothing(g, [b], KeyOf(g, a));
    SelectAllOrNothing(g, [a], KeyOf(g, b));
    SelectAllOrNothing(g, [b], KeyOf(g, b));
  }

  lemma SumOfOne(components: seq<Component>, e: Entry)
    requires ValidDates(e)
    ensures var s := Sum([e]);
            s.startDate == e.startDate && s.endDate == e.endDate && Values(components, s) == Values(components, e)
  {
    NumbersOne(e);
  }

  lemma OneDaySum(g: Grouping, a: Entry, b: Entry)
    requires ValidGrouping(g) && ValidDates(a) && ValidDates(b) && KeyOf(g, a) != KeyOf(g, b)
    ensures var s, t := Sum(Select(g, [a, b], KeyOf(g, a))), Sum(Select(g, [a, b], KeyOf(g, b)));
            && s.startDate == a.startDate && s.endDate == a.endDate && Values(g.components, s) == Values(g.components, a)
            && t.startDate == b.startDate && t.endDate == b.endDate && Values(g.components, t) == Values(g.components, b)
  {
    SelectOneOfTwo(g, a, b);
    hide KeyOf, Select, Sum, Values;
    SumOfOne(g.components, a);
    SumOfOne(g.components, b);
  }

  /**
    For every number of days and every choice of components: the summaries tile every report
    exactly when the period is longer than one day, because one-day summaries keep the end dates
    of entries that last longer.
   */
  lemma DaysTileIffLongerThanOne(le: Order, components: seq<Component>, n: int)
    requires TotalOrder(le) && n > 0
    ensures AlwaysTiles(le, components, EachDays(n)) <==> n > 1
  {
    hide Summaries, TotalOrder, WellDated, Covered, Passes, Fails;
    if n > 1 {
      forall es | WellDated(es)
        ensures Tiles(components, es, Summaries(le, components, EachDays(n), es))
      {
        PeriodsTile(le, components, EachDays(n), es);
      }
    } else {
      OneDayGroups(le, components);
      WitnessWellDated();
    }
  }
}
