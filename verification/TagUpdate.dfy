/** The update of the lifecycle tags as a whole: four levels, each with its windows, passes and removals. */
module TagUpdate {
  import opened FailureRates
  import opened LifecycleTags
  import opened Options
  import opened ReportCombinations
  import opened ReportEntries
  import opened ReportGroups
  import opened ReportPeriods
  import opened TagChangelog
  import opened TagUpdateCascade
  import opened TagWindows

  datatype Rates = Rates(acceptable: real, unacceptable: real)

  /** The rates of the four levels, the finest first; minimal numbers of runs; and windows in days. */
  datatype Config = Config(rates: seq<Rates>, reliableMinRuns: int, unreliableMinRuns: int,
                           reliableDays: int, unreliableDays: int)

  /** Entries of tests by their names, with counts that are not negative. */
  ghost predicate History(es: seq<Entry>) {
    ValidEntries(es) && forall e :: e in es ==> OfOneTest(e)
  }

  // ----- What a level looks at, told by the entries of the report -----

  /** The first of the given number of days that end with the report's last. */
  function WindowStart(es: seq<Entry>, days: int): int {
    LastEnd(es) - days + 1
  }

  function Recent(c: Config, es: seq<Entry>): seq<Entry> {
    Since(es, WindowStart(es, c.reliableDays))
  }

  function RanRecently(level: nat, c: Config, es: seq<Entry>): set<seq<Value>>
    requires level < 4
  {
    Combinations(Level(level), Recent(c, es))
  }

  /** The entries of the longer window whose combination is among those that ran recently. */
  function StillRunning(level: nat, c: Config, es: seq<Entry>): seq<Entry>
    requires level < 4
  {
    SinceAmong(Level(level), es, WindowStart(es, c.unreliableDays), RanRecently(level, c, es))
  }

  lemma {:induction false} SinceMembers(es: seq<Entry>, day: int)
    ensures forall e :: e in Since(es, day) <==> e in es && e.startDate >= day
  {
    if es != [] {
      SinceMembers(es[..|es| - 1], day);
      assert es == es[..|es| - 1] + [es[|es| - 1]];
    }
  }

  lemma {:induction false} SinceAmongMembers(components: seq<Component>, es: seq<Entry>, day: int, ran: set<seq<Value>>)
    ensures forall e :: e in SinceAmong(components, es, day, ran) <==>
                        e in es && e.startDate >= day && Values(components, e) in ran
  {
    if es != [] {
      SinceAmongMembers(components, es[..|es| - 1], day, ran);
      assert es == es[..|es| - 1] + [es[|es| - 1]];
    }
  }

  lemma WindowsAreHistory(level: nat, c: Config, es: seq<Entry>)
    requires level < 4 && History(es)
    ensures History(Recent(c, es)) && History(StillRunning(level, c, es))
  {
    hide OfOneTest, ValidDates, Level, RanRecently;
    SinceMembers(es, WindowStart(es, c.reliableDays));
    SinceAmongMembers(Level(level), es, WindowStart(es, c.unreliableDays), RanRecently(level, c, es));
  }

  // ----- Summaries of one test -----

  lemma {:induction false} CountsNotNegative(es: seq<Entry>)
    requires forall e :: e in es ==> OfOneTest(e)
    ensures Passes(es) >= 0 && Fails(es) >= 0
  {
    if es != [] {
      assert es[|es| - 1] in es;
      CountsNotNegative(es[..|es| - 1]);
    }
  }

  lemma {:induction false} MatchingMembers(components: seq<Component>, es: seq<Entry>, values: seq<Value>, span: Option<Span>)
    ensures forall e :: e in Matching(components, es, values, span) ==> e in es
  {
    if es != [] {
      hide Values, Starts;
      MatchingMembers(components, es[..|es| - 1], values, span);
    }
  }

  lemma SummaryCounts(le: Order, components: seq<Component>, es: seq<Entry>, i: nat)
    requires TotalOrder(le) && History(es) && i < |Summaries(le, components, NoPeriod, es)|
    ensures var s := Summaries(le, components, NoPeriod, es)[i];
            s == Sum(Matching(components, es, Values(components, s), None)) && s.numPass >= 0 && s.numFail >= 0
  {
    hide Summaries, Matching, TotalOrder, Values, OfOneTest, ValidEntries, Passes, Fails, Common, FirstStart, LastEnd;
    var s := Summaries(le, components, NoPeriod, es)[i];
    SummaryIsSumOfMatching(le, components, NoPeriod, es, i);
    MatchingMembers(components, es, Values(components, s), None);
    CountsNotNegative(Matching(components, es, Values(components, s), None));
  }

  lemma SummariesOfOneTest(le: Order, level: nat, es: seq<Entry>)
    requires level < 4 && TotalOrder(le) && History(es)
    ensures var s := Summaries(le, Level(level), NoPeriod, es);
            forall i :: 0 <= i < |s| ==> OfOneTest(s[i])
  {
    hide Summaries, TotalOrder, ValidEntries;
    var s := Summaries(le, Level(level), NoPeriod, es);
    forall i | 0 <= i < |s|
      ensures OfOneTest(s[i])
    {
      SummaryCounts(le, Level(level), es, i);
      var e := SummaryHasEntry(le, Level(level), es, i);
      assert s[i].test == Values(Level(level), s[i])[0] == Values(Level(level), e)[0] == e.test;
    }
  }

  // ----- A level -----

  ghost function ReliableSummaries(le: Order, level: nat, c: Config, es: seq<Entry>): (r: seq<Entry>)
    requires level < 4 && TotalOrder(le) && History(es)
    ensures forall i :: 0 <= i < |r| ==> OfOneTest(r[i])
  {
    WindowsAreHistory(level, c, es);
    SummariesOfOneTest(le, level, Recent(c, es));
    Summaries(le, Level(level), NoPeriod, Recent(c, es))
  }

  ghost function UnreliableSummaries(le: Order, level: nat, c: Config, es: seq<Entry>): (r: seq<Entry>)
    requires level < 4 && TotalOrder(le) && History(es)
    ensures forall i :: 0 <= i < |r| ==> OfOneTest(r[i])
  {
    WindowsAreHistory(level, c, es);
    SummariesOfOneTest(le, level, StillRunning(level, c, es));
    Summaries(le, Level(level), NoPeriod, StillRunning(level, c, es))
  }

  /** The tags after a level: what is unreliable is tagged, then what is reliable untagged, then what no longer runs. */
  ghost function LevelAfter(le: Order, level: nat, c: Config, es: seq<Entry>, tests: seq<string>, tags: set<Tag>): set<Tag>
    requires level < 4 && |c.rates| == 4 && TotalOrder(le) && History(es)
  {
    var rates := c.rates[level];
    var tagged := tags + TagsOf(UnreliableSummaries(le, level, c, es), UnreliableTest, rates.unacceptable, c.unreliableMinRuns);
    var left := tagged - TagsOf(ReliableSummaries(le, level, c, es), ReliableTest, rates.acceptable, c.reliableMinRuns);
    set t | t in left && !Stale(t, tests, Level(level), RanRecently(level, c, es))
  }

  ghost function LevelsAfter(le: Order, n: nat, c: Config, es: seq<Entry>, tests: seq<string>, tags: set<Tag>): set<Tag>
    requires n <= 4 && |c.rates| == 4 && TotalOrder(le) && History(es)
  {
    if n == 0 then tags else LevelAfter(le, n - 1, c, es, tests, LevelsAfter(le, n - 1, c, es, tests, tags))
  }

  lemma {:induction false} RunTags(edits: seq<Edit>, s: State)
    ensures Run(edits, s).tags == TagsAfter(edits, s.tags)
  {
    if edits != [] {
      RunTags(edits[..|edits| - 1], s);
    }
  }

  lemma NoSummaries(le: Order, components: seq<Component>)
    ensures Summaries(le, components, NoPeriod, []) == []
  {
    assert SortByKey(le, GroupingFor(components, NoPeriod, []), []) == [];
  }

  /** One pass, with what it comes to for the tags. */
  method Pass(tags: TagsConfigWithChangelog, report: seq<Entry>, methodTest: MethodTest, addTags: bool, failRate: real,
              minRun: int)
    returns (ghost edits: seq<Edit>)
    requires tags.Valid() && forall i :: 0 <= i < |report| ==> OfOneTest(report[i])
    modifies tags
    ensures tags.Valid() && tags.Value() == Run(edits, old(tags.Value()))
    ensures var chosen := TagsOf(report, methodTest, failRate, minRun);
            tags.lifecycle == if addTags then old(tags.lifecycle) + chosen else old(tags.lifecycle) - chosen
  {
    hide Flat, Compact, TagsAfter, Run, Edits, OfOneTest, Meets;
    edits := Edits(report, methodTest, addTags, failRate, minRun);
    UpdateLifecycle(tags, report, methodTest, addTags, failRate, minRun);
    RunTags(edits, old(tags.Value()));
    PassEditsExactly(report, methodTest, addTags, failRate, minRun, old(tags.lifecycle));
  }

  /** `summarize_by` of a part of a report, which the source skips when there is nothing to summarize. */
  method SummarizePart(le: Order, components: seq<Component>, es: seq<Entry>) returns (r: seq<Entry>)
    ensures r == Summaries(le, components, NoPeriod, es)
  {
    if es != [] {
      var summary := SummarizeBy(le, components, NoPeriod, es);
      r := summary.summaries;
    } else {
      NoSummaries(le, components);
      r := [];
    }
  }

  /** What a level computes from its daily summary is what the entries of the report say. */
  lemma LevelIsOfReport(le: Order, level: nat, c: Config, es: seq<Entry>)
    requires level < 4 && TotalOrder(le) && History(es)
    ensures var components, grouped := Level(level), DailySummary(le, Level(level), es);
            var recent := Since(grouped, WindowStart(es, c.reliableDays));
            var ran := Combinations(components, recent);
            && ran == RanRecently(level, c, es)
            && Summaries(le, components, NoPeriod, recent) == ReliableSummaries(le, level, c, es)
            && Summaries(le, components, NoPeriod, SinceAmong(components, grouped, WindowStart(es, c.unreliableDays), ran))
               == UnreliableSummaries(le, level, c, es)
  {
    hide Summaries, DailySummary, Level, Since, SinceAmong, Combinations, TotalOrder, OfOneTest, LastEnd;
    var components := Level(level);
    RecentCombinations(le, components, es, WindowStart(es, c.reliableDays));
    RecentSummaries(le, components, es, WindowStart(es, c.reliableDays));
    RecentSummariesAmong(le, components, es, WindowStart(es, c.unreliableDays), RanRecently(level, c, es));
  }

  method UpdateLevel(tags: TagsConfigWithChangelog, le: Order, level: nat, c: Config, grouped: seq<Entry>, end: int,
                     tests: seq<string>, ghost es: seq<Entry>)
    returns (ghost edits: seq<Edit>)
    requires tags.Valid() && level < 4 && |c.rates| == 4 && TotalOrder(le) && History(es)
    requires grouped == DailySummary(le, Level(level), es) && end == LastEnd(es)
    modifies tags
    ensures tags.Valid() && tags.Value() == Run(edits, old(tags.Value()))
    ensures tags.lifecycle == LevelAfter(le, level, c, es, tests, old(tags.lifecycle))
  {
    hide Summaries, DailySummary, Level, Since, SinceAmong, Combinations, TotalOrder, History, LastEnd;
    hide Flat, Compact, Run, OfOneTest, Meets, ReliableSummaries, UnreliableSummaries, RanRecently;
    LevelIsOfReport(le, level, c, es);
    var components, rates := Level(level), c.rates[level];
    var recent := Since(grouped, end - c.reliableDays + 1);
    var ran := Combinations(components, recent);
    var reliable := SummarizePart(le, components, recent);
    var running := SinceAmong(components, grouped, end - c.unreliableDays + 1, ran);
    var unreliable := SummarizePart(le, components, running);
    ghost var added := Pass(tags, unreliable, UnreliableTest, true, rates.unacceptable, c.unreliableMinRuns);
    ghost var removed := Pass(tags, reliable, ReliableTest, false, rates.acceptable, c.reliableMinRuns);
    ghost var stale := RemoveStaleTags(tags, tests, components, ran);
    edits := added + removed + stale;
    RunConcat(added, removed, old(tags.Value()));
    RunConcat(added + removed, stale, old(tags.Value()));
  }

  /**
    All levels, each summarized from the one before, do to the tags what the entries of the
    report say; and all of it is one run of edits, so the changelog is its net difference.
   */
  method UpdateTags(tags: TagsConfigWithChangelog, le: Order, c: Config, es: seq<Entry>, tests: seq<string>)
    returns (ghost edits: seq<Edit>)
    requires tags.Valid() && |c.rates| == 4 && TotalOrder(le) && History(es) && es != []
    modifies tags
    ensures tags.Valid() && tags.Value() == Run(edits, old(tags.Value()))
    ensures tags.lifecycle == LevelsAfter(le, 4, c, es, tests, old(tags.lifecycle))
  {
    hide Summaries, Level, TotalOrder, LastEnd, Flat, Compact, Run, LevelAfter, OfOneTest;
    edits := [];
    RunNothing(tags.Value());
    var report := es;
    for i := 0 to 4
      invariant tags.Valid() && tags.Value() == Run(edits, old(tags.Value()))
      invariant tags.lifecycle == LevelsAfter(le, i, c, es, tests, old(tags.lifecycle))
      invariant report != [] && ValidEntries(report) && LastEnd(report) == LastEnd(es)
      invariant report == if i == 0 then es else DailySummary(le, Level(i - 1), es)
    {
      var summary := SummarizeBy(le, Level(i), EachDay, report);
      if i > 0 {
        DailyRegrouping(le, i, es);
      }
      DailyKeepsDates(le, Level(i), report);
      ghost var more := UpdateLevel(tags, le, i, c, summary.summaries, LastEnd(report), tests, es);
      RunConcat(edits, more, old(tags.Value()));
      edits := edits + more;
      report := summary.summaries;
    }
  }

  // ----- What the tags say afterwards -----

  /** A tag is there after a level exactly when it was, or is of an unreliable summary, and nothing speaks against it. */
  lemma TagAfterLevel(le: Order, level: nat, c: Config, es: seq<Entry>, tests: seq<string>, tags: set<Tag>, t: Tag)
    requires level < 4 && |c.rates| == 4 && TotalOrder(le) && History(es)
    ensures var rates, bad, good := c.rates[level], UnreliableSummaries(le, level, c, es), ReliableSummaries(le, level, c, es);
            t in LevelAfter(le, level, c, es, tests, tags) <==>
            && (t in tags || exists i :: 0 <= i < |bad| && Unreliable(bad[i], rates.unacceptable, c.unreliableMinRuns)
                                         && TagOf(bad[i]) == t)
            && (forall i :: 0 <= i < |good| && Reliable(good[i], rates.acceptable, c.reliableMinRuns) ==> TagOf(good[i]) != t)
            && !Stale(t, tests, Level(level), RanRecently(level, c, es))
  {
    hide TotalOrder, History, Unreliable, Reliable, TagOf, Meets, Stale, ReliableSummaries, UnreliableSummaries, RanRecently;
    var rates, bad, good := c.rates[level], UnreliableSummaries(le, level, c, es), ReliableSummaries(le, level, c, es);
    forall i | 0 <= i < |bad|
      ensures Meets(bad[i], UnreliableTest, rates.unacceptable, c.unreliableMinRuns) <==>
              Unreliable(bad[i], rates.unacceptable, c.unreliableMinRuns)
    {
      MeetsIff(bad[i], rates.unacceptable, c.unreliableMinRuns);
    }
    forall i | 0 <= i < |good|
      ensures Meets(good[i], ReliableTest, rates.acceptable, c.reliableMinRuns) <==>
              Reliable(good[i], rates.acceptable, c.reliableMinRuns)
    {
      MeetsIff(good[i], rates.acceptable, c.reliableMinRuns);
    }
  }

  lemma RunningRanRecently(level: nat, c: Config, es: seq<Entry>)
    requires level < 4
    ensures forall e :: e in StillRunning(level, c, es) ==> Values(Level(level), e) in RanRecently(level, c, es)
  {
    hide Level, RanRecently, Values;
    SinceAmongMembers(Level(level), es, WindowStart(es, c.unreliableDays), RanRecently(level, c, es));
  }

  /** What is unreliable and not reliable at a level has its tag after it: the removal of stale tags spares it. */
  lemma UnreliableIsTagged(le: Order, level: nat, c: Config, es: seq<Entry>, tests: seq<string>, tags: set<Tag>, i: nat)
    requires level < 4 && |c.rates| == 4 && TotalOrder(le) && History(es)
    requires i < |UnreliableSummaries(le, level, c, es)|
    requires var s := UnreliableSummaries(le, level, c, es)[i];
             && Unreliable(s, c.rates[level].unacceptable, c.unreliableMinRuns)
             && (forall name :: name in Known([s.task, s.variant, s.distro]) ==> Clean(name))
    requires var s, good := UnreliableSummaries(le, level, c, es)[i], ReliableSummaries(le, level, c, es);
             forall j :: 0 <= j < |good| && Reliable(good[j], c.rates[level].acceptable, c.reliableMinRuns) ==>
                           TagOf(good[j]) != TagOf(s)
    ensures TagOf(UnreliableSummaries(le, level, c, es)[i]) in LevelAfter(le, level, c, es, tests, tags)
  {
    hide TotalOrder, ValidEntries, Unreliable, Reliable, Known, Clean, ShouldBeRemoved, UnreliableTag, LevelAfter;
    hide Summaries, RanRecently, StillRunning, ReliableSummaries, Level;
    var s := UnreliableSummaries(le, level, c, es)[i];
    TagAfterLevel(le, level, c, es, tests, tags, TagOf(s));
    WindowsAreHistory(level, c, es);
    RunningRanRecently(level, c, es);
    FreshTagSurvives(le, StillRunning(level, c, es), level, i, RanRecently(level, c, es));
  }
}
