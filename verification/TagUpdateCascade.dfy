/** The cascade in which update_tags summarizes a report at four levels of detail. */
module TagUpdateCascade {
  import opened ReportEntries
  import opened ReportGroups
  import opened ReportRegrouping
  import opened ReportPeriods

  /** The component lists of the four levels, the finest first. */
  function Level(i: nat): seq<Component>
    requires i < 4
  {
    [Test, Task, Variant, Distro][..4 - i]
  }

  /** The daily summary of the report that the entries make up. */
  function DailySummary(le: Order, components: seq<Component>, es: seq<Entry>): seq<Entry> {
    Summaries(le, components, EachDay, es)
  }

  lemma DailyRegrouping(le: Order, i: nat, es: seq<Entry>)
    requires TotalOrder(le) && ValidEntries(es) && 0 < i < 4
    ensures DailySummary(le, Level(i), DailySummary(le, Level(i - 1), es)) == DailySummary(le, Level(i), es)
  {
    var fine := GroupingFor(Level(i - 1), EachDay, es);
    var coarse := GroupingFor(Level(i), EachDay, es);
    assert Level(i) <= Level(i - 1);
    RegroupingIsLossless(le, coarse, fine, es);
    SummedDates(le, fine, es);
  }

  lemma DailyKeepsDates(le: Order, components: seq<Component>, es: seq<Entry>)
    requires TotalOrder(le) && ValidEntries(es) && es != []
    ensures var s := DailySummary(le, components, es);
            s != [] && ValidEntries(s) && FirstStart(s) == FirstStart(es) && LastEnd(s) == LastEnd(es)
  {
    var g := GroupingFor(components, EachDay, es);
    SummedDates(le, g, es);
    SummariesAre(le, g, es);
    assert es[0] in es;
  }

  /**
    Each level is summarized from the level before it, and equals the direct summary of the
    original report; the end date that the time windows are counted back from stays the same.
   */
  method SummarizeLevels(le: Order, es: seq<Entry>) returns (levels: seq<seq<Entry>>, endDates: seq<int>)
    requires TotalOrder(le) && ValidEntries(es) && es != []
    ensures |levels| == |endDates| == 4
    ensures forall i :: 0 <= i < 4 ==> levels[i] == DailySummary(le, Level(i), es) && endDates[i] == LastEnd(es)
  {
    hide Level, ValidEntries, TotalOrder, Summaries;
    levels, endDates := [], [];
    var report := es;
    for i := 0 to 4
      invariant |levels| == |endDates| == i
      invariant forall j :: 0 <= j < i ==> levels[j] == DailySummary(le, Level(j), es) && endDates[j] == LastEnd(es)
      invariant report != [] && ValidEntries(report) && LastEnd(report) == LastEnd(es)
      invariant report == if i == 0 then es else levels[i - 1]
    {
      var summary := SummarizeBy(le, Level(i), EachDay, report);
      if i > 0 {
        DailyRegrouping(le, i, es);
      }
      DailyKeepsDates(le, Level(i), report);
      levels := levels + [summary.summaries];
      endDates := endDates + [LastEnd(report)];
      report := summary.summaries;
    }
  }
}
