/** Lifecycle tags: how a summary becomes a tag, how a tag is read back, and the two passes that edit the tags. */
module LifecycleTags {
  import opened Options
  import opened ReportEntries
  import opened ReportGroups
  import opened ReportPeriods
  import opened Sequences
  import opened TagChangelog
  import opened TagUpdateCascade

  const KIND := "js_test"
  const UNRELIABLE := "unreliable"
  const BAR := '|'

  // ----- Splitting and joining -----

  /** `text.split("|")` */
  function Elements(text: string): (r: seq<string>)
    ensures r != []
  {
    if text == [] then [""]
    else
      var rest := Elements(text[1..]);
      if text[0] == BAR then [""] + rest else [[text[0]] + rest[0]] + rest[1..]
  }

  function Join(parts: seq<string>): string
    requires parts != []
  {
    if |parts| == 1 then parts[0] else parts[0] + [BAR] + Join(parts[1..])
  }

  lemma {:induction false} ElementsHaveNoBar(text: string)
    ensures forall part :: part in Elements(text) ==> BAR !in part
  {
    if text != [] {
      ElementsHaveNoBar(text[1..]);
      var rest := Elements(text[1..]);
      assert rest[0] in rest;
    }
  }

  lemma {:induction false} ElementsOfOne(text: string)
    requires BAR !in text
    ensures Elements(text) == [text]
  {
    if text != [] {
      ElementsOfOne(text[1..]);
      assert [text[0]] + text[1..] == text;
    }
  }

  lemma {:induction false} ElementsBeforeBar(a: string, b: string)
    requires BAR !in a
    ensures Elements(a + [BAR] + b) == [a] + Elements(b)
  {
    var text := a + [BAR] + b;
    if a == [] {
      assert text[1..] == b;
    } else {
      assert text[1..] == a[1..] + [BAR] + b;
      ElementsBeforeBar(a[1..], b);
      assert [a[0]] + a[1..] == a;
    }
  }

  lemma {:induction false} ElementsOfJoin(parts: seq<string>)
    requires parts != [] && forall i :: 0 <= i < |parts| ==> BAR !in parts[i]
    ensures Elements(Join(parts)) == parts
  {
    if |parts| == 1 {
      ElementsOfOne(parts[0]);
    } else {
      ElementsOfJoin(parts[1..]);
      ElementsBeforeBar(parts[0], Join(parts[1..]));
    }
  }

  // ----- Tags -----

  /** The tag of a summary names its components up to the first that stands for several values or none. */
  function UnreliableTag(task: Value, variant: Value, distro: Value): string {
    if !task.Name? then UNRELIABLE
    else if !variant.Name? then UNRELIABLE + [BAR] + task.name
    else if !distro.Name? then UNRELIABLE + [BAR] + (task.name + [BAR] + variant.name)
    else UNRELIABLE + [BAR] + (task.name + [BAR] + (variant.name + [BAR] + distro.name))
  }

  /** Task, variant and distro of a tag; all absent if the tag is not one of ours. */
  function SplitTag(tag: string): seq<Option<string>> {
    FillOut(Elements(tag))
  }

  function FillOut(elements: seq<string>): (r: seq<Option<string>>)
    requires elements != []
    ensures |r| == 3
  {
    if elements[0] != UNRELIABLE || |elements| < 2 || |elements| > 4 then [None, None, None]
    else seq(3, i requires 0 <= i < 3 => if i + 1 < |elements| then Some(elements[i + 1]) else None)
  }

  /** The present and nonempty ones among the components of a tag. */
  function Present(components: seq<Option<string>>): seq<string> {
    if components == [] then []
    else
      (if components[0].Some? && components[0].value != "" then [components[0].value] else [])
      + Present(components[1..])
  }

  function CombinationFromTag(test: string, tag: string): seq<string> {
    [test] + Present(SplitTag(tag))
  }

  /** The names before the first value that is not a name. */
  function Known(values: seq<Value>): seq<string> {
    if values == [] || !values[0].Name? then [] else [values[0].name] + Known(values[1..])
  }

  predicate Clean(name: string) {
    name != "" && BAR !in name
  }

  lemma {:induction false} PresentIsClean(components: seq<Option<string>>)
    requires forall i :: 0 <= i < |components| && components[i].Some? ==> BAR !in components[i].value
    ensures forall name :: name in Present(components) ==> Clean(name)
  {
    if components != [] {
      PresentIsClean(components[1..]);
    }
  }

  lemma {:induction false} PresentAreNames(components: seq<Option<string>>, names: seq<string>)
    requires |names| <= |components| && forall i :: 0 <= i < |names| ==> Clean(names[i])
    requires forall i :: 0 <= i < |components| ==> components[i] == if i < |names| then Some(names[i]) else None
    ensures Present(components) == names
  {
    if components != [] {
      var rest := components[1..];
      if names == [] {
        PresentAreNames(rest, []);
      } else {
        assert Clean(names[0]) && components[0] == Some(names[0]);
        PresentAreNames(rest, names[1..]);
      }
    }
  }

  lemma TagComponentsAreClean(tag: string)
    ensures forall name :: name in Present(SplitTag(tag)) ==> Clean(name)
  {
    hide Elements, Present;
    ElementsHaveNoBar(tag);
    var elements, read := Elements(tag), SplitTag(tag);
    forall i | 0 <= i < |read| && read[i].Some?
      ensures BAR !in read[i].value
    {
      assert read[i].value in elements;
    }
    PresentIsClean(read);
  }

  lemma CleanNamesFillOut(names: seq<string>)
    requires |names| <= 3 && forall i :: 0 <= i < |names| ==> Clean(names[i])
    ensures Present(FillOut([UNRELIABLE] + names)) == names
  {
    hide Present, Clean;
    PresentAreNames(FillOut([UNRELIABLE] + names), names);
  }

  lemma {:induction false} JoinOfElements(text: string)
    ensures Join(Elements(text)) == text
  {
    if text != [] {
      var rest := Elements(text[1..]);
      JoinOfElements(text[1..]);
      assert text == [text[0]] + text[1..];
      if text[0] == BAR {
        assert ([""] + rest)[1..] == rest;
      } else if |rest| > 1 {
        var first := [text[0]] + rest[0];
        assert ([first] + rest[1..])[1..] == rest[1..];
        assert [text[0]] + (rest[0] + [BAR] + Join(rest[1..])) == first + [BAR] + Join(rest[1..]);
      }
    }
  }

  /** A tag made of the word and one to three names without bars, which may be empty. */
  ghost predicate IsTagOf(tag: string, names: seq<string>) {
    && 1 <= |names| <= 3 && (forall i :: 0 <= i < |names| ==> BAR !in names[i])
    && tag == Join([UNRELIABLE] + names)
  }

  /** Exactly the tags of this form have components, and these are the names; all others have none. */
  lemma TagIsSplitIff(tag: string, names: seq<string>)
    ensures IsTagOf(tag, names) <==>
            && 1 <= |names| <= 3 && (forall i :: 0 <= i < 3 ==>
                                       SplitTag(tag)[i] == if i < |names| then Some(names[i]) else None)
    ensures forall i, j :: 0 <= i < j < 3 && SplitTag(tag)[j].Some? ==> SplitTag(tag)[i].Some?
  {
    hide Elements, Join;
    var elements := Elements(tag);
    ElementsHaveNoBar(tag);
    JoinOfElements(tag);
    if IsTagOf(tag, names) {
      UnreliableHasNoBar();
      assert forall i :: 0 < i <= |names| ==> ([UNRELIABLE] + names)[i] == names[i - 1];
      ElementsOfJoin([UNRELIABLE] + names);
    }
    if 1 <= |names| <= 3 && forall i :: 0 <= i < 3 ==> SplitTag(tag)[i] == if i < |names| then Some(names[i]) else None {
      assert SplitTag(tag)[0] == Some(names[0]);
      assert SplitTag(tag)[|names| - 1] == Some(names[|names| - 1]);
      assert |names| < 3 ==> SplitTag(tag)[|names|] == None;
      assert elements[0] == UNRELIABLE && |elements| == |names| + 1;
      forall i | 0 <= i < |names|
        ensures names[i] == elements[i + 1] && BAR !in names[i]
      {
        assert SplitTag(tag)[i] == Some(names[i]);
        assert elements[i + 1] in elements;
      }
      assert elements == [UNRELIABLE] + names;
    }
  }

  lemma UnreliableHasNoBar()
    ensures BAR !in UNRELIABLE
  {
  }

  lemma CleanNamesAreRead(names: seq<string>)
    requires |names| <= 3 && forall i :: 0 <= i < |names| ==> Clean(names[i])
    ensures Present(SplitTag(Join([UNRELIABLE] + names))) == names
  {
    hide Elements, Present, Join, FillOut;
    var parts := [UNRELIABLE] + names;
    assert forall i :: 0 < i < |parts| ==> parts[i] == names[i - 1];
    UnreliableHasNoBar();
    ElementsOfJoin(parts);
    CleanNamesFillOut(names);
  }

  lemma JoinStep(a: string, names: seq<string>)
    ensures Join([a] + names) == if names == [] then a else a + [BAR] + Join(names)
  {
    assert names != [] ==> ([a] + names)[1..] == names;
  }

  lemma TagIsJoin(task: Value, variant: Value, distro: Value)
    ensures UnreliableTag(task, variant, distro) == Join([UNRELIABLE] + Known([task, variant, distro]))
    ensures |Known([task, variant, distro])| <= 3
  {
    hide Join;
    var known1, known2, known3 := Known([distro]), Known([variant, distro]), Known([task, variant, distro]);
    var none: seq<Value> := [];
    assert [distro][1..] == none && Known(none) == [];
    assert [variant, distro][1..] == [distro] && [task, variant, distro][1..] == [variant, distro];
    assert known1 == if distro.Name? then [distro.name] + [] else [];
    assert known2 == if variant.Name? then [variant.name] + known1 else [];
    assert known3 == if task.Name? then [task.name] + known2 else [];
    JoinStep(UNRELIABLE, known3);
    if task.Name? {
      JoinStep(task.name, known2);
      if variant.Name? {
        JoinStep(variant.name, known1);
        if distro.Name? {
          JoinStep(distro.name, []);
        }
      }
    }
  }

  /** Reading a tag back gives the names it was made from, exactly when none is empty or contains a bar. */
  lemma TagRoundTrip(test: string, task: Value, variant: Value, distro: Value)
    ensures CombinationFromTag(test, UnreliableTag(task, variant, distro)) == [test] + Known([task, variant, distro])
       <==> forall name :: name in Known([task, variant, distro]) ==> Clean(name)
  {
    hide UnreliableTag, Known, SplitTag, Present, Clean;
    var known := Known([task, variant, distro]);
    TagIsJoin(task, variant, distro);
    var tag := UnreliableTag(task, variant, distro);
    var read := Present(SplitTag(tag));
    TagComponentsAreClean(tag);
    if forall name :: name in known ==> Clean(name) {
      CleanNamesAreRead(known);
    }
    assert [test] + read == [test] + known ==> read == known by {
      assert ([test] + read)[1..] == read && ([test] + known)[1..] == known;
    }
  }

  // ----- Adding and removing tags by failure rate -----

  /** A summary of the runs of one test. */
  predicate OfOneTest(e: Entry) {
    e.test.Name? && e.numPass >= 0 && e.numFail >= 0
  }

  function FailRate(e: Entry): real
    requires OfOneTest(e)
  {
    if e.numPass == 0 && e.numFail == 0 then 0.0 else e.numFail as real / (e.numPass + e.numFail) as real
  }

  /** `unreliable_test` or `reliable_test`: failure rate, its threshold, runs, their threshold. */
  type MethodTest = (real, real, int, int) -> bool

  function TagOf(e: Entry): Tag
    requires OfOneTest(e)
  {
    Tag(KIND, e.test.name, UnreliableTag(e.task, e.variant, e.distro))
  }

  predicate Meets(e: Entry, methodTest: MethodTest, failRate: real, minRun: int)
    requires OfOneTest(e)
  {
    methodTest(FailRate(e), failRate, e.numPass + e.numFail, minRun)
  }

  /** The edits of one pass over the summaries. */
  function Edits(report: seq<Entry>, methodTest: MethodTest, addTags: bool, failRate: real, minRun: int): seq<Edit>
    requires forall i :: 0 <= i < |report| ==> OfOneTest(report[i])
  {
    if report == [] then []
    else
      var last := report[|report| - 1];
      var before := Edits(report[..|report| - 1], methodTest, addTags, failRate, minRun);
      if !Meets(last, methodTest, failRate, minRun) then before
      else before + [if addTags then Add(TagOf(last), FailRate(last)) else Remove(TagOf(last), FailRate(last))]
  }

  /** The tags of the summaries that meet the test. */
  ghost function TagsOf(report: seq<Entry>, methodTest: MethodTest, failRate: real, minRun: int): set<Tag>
    requires forall i :: 0 <= i < |report| ==> OfOneTest(report[i])
  {
    set i | 0 <= i < |report| && Meets(report[i], methodTest, failRate, minRun) :: TagOf(report[i])
  }

  lemma RunSnoc(edits: seq<Edit>, e: Edit, s: State)
    ensures Run(edits + [e], s) == Apply(e, Run(edits, s))
    ensures TagsAfter(edits + [e], s.tags) ==
            if e.Add? then TagsAfter(edits, s.tags) + {e.t} else TagsAfter(edits, s.tags) - {e.t}
  {
    assert (edits + [e])[..|edits|] == edits;
  }

  lemma RunNothing(s: State)
    ensures Run([], s) == s
  {
  }

  /** Consecutive runs are one run, so `LogsAreNetDifference` speaks of whole sequences of passes. */
  lemma {:induction false} RunConcat(a: seq<Edit>, b: seq<Edit>, s: State)
    ensures Run(a + b, s) == Run(b, Run(a, s))
  {
    if b == [] {
      assert a + b == a;
    } else {
      var init, last := b[..|b| - 1], b[|b| - 1];
      RunConcat(a, init, s);
      RunSnoc(a + init, last, s);
      assert a + b == (a + init) + [last];
    }
  }

  method UpdateLifecycle(tags: TagsConfigWithChangelog, report: seq<Entry>, methodTest: MethodTest, addTags: bool,
                         failRate: real, minRun: int)
    requires tags.Valid() && forall i :: 0 <= i < |report| ==> OfOneTest(report[i])
    modifies tags
    ensures tags.Valid()
    ensures tags.Value() == Run(Edits(report, methodTest, addTags, failRate, minRun), old(tags.Value()))
  {
    hide Flat, Compact, Apply, UnreliableTag, FailRate, TagsAfter;
    for i := 0 to |report|
      invariant tags.Valid()
      invariant tags.Value() == Run(Edits(report[..i], methodTest, addTags, failRate, minRun), old(tags.Value()))
    {
      var summary := report[i];
      ghost var before := Edits(report[..i], methodTest, addTags, failRate, minRun);
      assert report[..i + 1][..i] == report[..i];
      if Meets(summary, methodTest, failRate, minRun) {
        if addTags {
          RunSnoc(before, Add(TagOf(summary), FailRate(summary)), old(tags.Value()));
          tags.AddTag(TagOf(summary), FailRate(summary));
        } else {
          RunSnoc(before, Remove(TagOf(summary), FailRate(summary)), old(tags.Value()));
          tags.RemoveTag(TagOf(summary), FailRate(summary));
        }
      }
    }
    assert report[..|report|] == report;
  }

  lemma TagsOfSnoc(report: seq<Entry>, last: Entry, methodTest: MethodTest, failRate: real, minRun: int)
    requires (forall i :: 0 <= i < |report| ==> OfOneTest(report[i])) && OfOneTest(last)
    ensures TagsOf(report + [last], methodTest, failRate, minRun)
         == TagsOf(report, methodTest, failRate, minRun)
            + if Meets(last, methodTest, failRate, minRun) then {TagOf(last)} else {}
  {
    hide UnreliableTag, FailRate, Meets, TagOf;
    var all := report + [last];
    forall i | 0 <= i < |report|
      ensures all[i] == report[i]
    {
    }
    assert all[|report|] == last;
  }

  /** A pass adds, or removes, exactly the tags of the summaries that meet its test. */
  lemma {:induction false} PassEditsExactly(report: seq<Entry>, methodTest: MethodTest, addTags: bool, failRate: real,
                                            minRun: int, tags: set<Tag>)
    requires forall i :: 0 <= i < |report| ==> OfOneTest(report[i])
    ensures var chosen := TagsOf(report, methodTest, failRate, minRun);
            TagsAfter(Edits(report, methodTest, addTags, failRate, minRun), tags)
            == if addTags then tags + chosen else tags - chosen
  {
    if report != [] {
      hide UnreliableTag, FailRate;
      var init, last := report[..|report| - 1], report[|report| - 1];
      PassEditsExactly(init, methodTest, addTags, failRate, minRun, tags);
      var before := Edits(init, methodTest, addTags, failRate, minRun);
      if Meets(last, methodTest, failRate, minRun) {
        var e := if addTags then Add(TagOf(last), FailRate(last)) else Remove(TagOf(last), FailRate(last));
        RunSnoc(before, e, State(tags, map[], map[]));
      }
      TagsOfSnoc(init, last, methodTest, failRate, minRun);
      assert init + [last] == report;
    }
  }

  // ----- Removing the tags of tests that no longer run -----

  function Names(combination: seq<string>): seq<Value> {
    seq(|combination|, i requires 0 <= i < |combination| => Name(combination[i]))
  }

  /** A tag for just these components whose combination is not among those that ran. */
  predicate ShouldBeRemoved(test: string, tag: string, components: seq<Component>, ran: set<seq<Value>>) {
    var combination := CombinationFromTag(test, tag);
    |combination| == |components| && Names(combination) !in ran
  }

  ghost predicate Stale(t: Tag, tests: seq<string>, components: seq<Component>, ran: set<seq<Value>>) {
    t.kind == KIND && t.test in tests && ShouldBeRemoved(t.test, t.tag, components, ran)
  }

  /** The tags of one test, which the source reads into a list. */
  function TagsOfTest(tags: set<Tag>, test: string): set<Tag> {
    set t | t in tags && t.kind == KIND && t.test == test
  }

  /** Removes the stale ones among the tags of one test; `edits` are the removals made. */
  method RemoveStaleTagsOf(tags: TagsConfigWithChangelog, test: string, components: seq<Component>,
                           ran: set<seq<Value>>)
    returns (ghost edits: seq<Edit>)
    requires tags.Valid()
    modifies tags
    ensures tags.Valid() && tags.Value() == Run(edits, old(tags.Value()))
    ensures tags.lifecycle == set t | t in old(tags.lifecycle) && !Stale(t, [test], components, ran)
  {
    hide Flat, Compact, TagsAfter, ShouldBeRemoved;
    var left := TagsOfTest(tags.lifecycle, test);
    edits := [];
    while left != {}
      invariant tags.Valid() && tags.Value() == Run(edits, old(tags.Value()))
      invariant left <= TagsOfTest(tags.lifecycle, test)
      invariant tags.lifecycle <= old(tags.lifecycle)
      invariant forall t :: t in old(tags.lifecycle) && t !in tags.lifecycle ==> Stale(t, [test], components, ran)
      invariant forall t :: t in tags.lifecycle && t !in left ==> !Stale(t, [test], components, ran)
      decreases left
    {
      var t :| t in left;
      left := left - {t};
      if ShouldBeRemoved(test, t.tag, components, ran) {
        RunSnoc(edits, Remove(t, 0.0), old(tags.Value()));
        edits := edits + [Remove(t, 0.0)];
        tags.RemoveTag(t, 0.0);
      }
    }
  }

  /** After the pass no tag of the given tests is stale, and no other tag is gone. */
  method RemoveStaleTags(tags: TagsConfigWithChangelog, tests: seq<string>, components: seq<Component>,
                         ran: set<seq<Value>>)
    returns (ghost edits: seq<Edit>)
    requires tags.Valid()
    modifies tags
    ensures tags.Valid() && tags.Value() == Run(edits, old(tags.Value()))
    ensures tags.lifecycle == set t | t in old(tags.lifecycle) && !Stale(t, tests, components, ran)
  {
    hide Flat, Compact, TagsAfter, ShouldBeRemoved, Run;
    edits := [];
    RunNothing(tags.Value());
    for i := 0 to |tests|
      invariant tags.Valid() && tags.Value() == Run(edits, old(tags.Value()))
      invariant tags.lifecycle == set t | t in old(tags.lifecycle) && !Stale(t, tests[..i], components, ran)
    {
      ghost var more := RemoveStaleTagsOf(tags, tests[i], components, ran);
      RunConcat(edits, more, old(tags.Value()));
      edits := edits + more;
      assert tests[..i + 1] == tests[..i] + [tests[i]];
    }
    assert tests[..|tests|] == tests;
  }

  lemma {:induction false} KnownIsPrefix(values: seq<Value>)
    ensures |Known(values)| <= |values|
    ensures forall i :: 0 <= i < |Known(values)| ==> values[i] == Name(Known(values)[i])
  {
    if values != [] {
      KnownIsPrefix(values[1..]);
    }
  }

  lemma KnownAt(e: Entry)
    ensures var values, known := [e.test, e.task, e.variant, e.distro], Known([e.task, e.variant, e.distro]);
            |known| <= 3 && forall i :: 0 <= i < |known| ==> values[i + 1] == Name(known[i])
  {
    KnownIsPrefix([e.task, e.variant, e.distro]);
  }

  /** A summary whose combination ran does not lose its tag at its own level. */
  lemma RunCombinationKeepsTag(summary: Entry, level: nat, ran: set<seq<Value>>)
    requires level < 4 && summary.test.Name? && Values(Level(level), summary) in ran
    requires forall name :: name in Known([summary.task, summary.variant, summary.distro]) ==> Clean(name)
    ensures !ShouldBeRemoved(summary.test.name, UnreliableTag(summary.task, summary.variant, summary.distro),
                             Level(level), ran)
  {
    hide Clean, SplitTag, Present, UnreliableTag;
    var known := Known([summary.task, summary.variant, summary.distro]);
    TagRoundTrip(summary.test.name, summary.task, summary.variant, summary.distro);
    KnownAt(summary);
    var combination := [summary.test.name] + known;
    if |combination| == |Level(level)| {
      assert Names(combination) == Values(Level(level), summary);
    }
  }

  lemma SummaryHasEntry(le: Order, components: seq<Component>, es: seq<Entry>, i: nat) returns (e: Entry)
    requires TotalOrder(le) && ValidEntries(es) && i < |Summaries(le, components, NoPeriod, es)|
    ensures e in es && Values(components, Summaries(le, components, NoPeriod, es)[i]) == Values(components, e)
  {
    hide Summed, GroupsOf, IsRun, KeyOf, Values, Sum, ValidEntries, TotalOrder;
    var g := GroupingFor(components, NoPeriod, es);
    SummedAt(le, g, es, i);
    var groups := GroupsOf(le, g, es);
    SumKeepsKey(g, groups[i]);
    e := groups[i][0];
    GroupsAre(le, g, es);
    FlattenMembers(groups);
    SameElements(Flatten(groups), es);
    assert e in groups[i];
    KeyHasValues(g, e);
  }

  lemma KeyHasValues(g: Grouping, e: Entry)
    requires ValidGrouping(g)
    ensures KeyOf(g, e).values == Values(g.components, e)
  {
  }

  /**
    The tag that a level writes for a summary is not stale at that level: the entries it sums up
    are ones whose combination ran, and reading the tag back gives that combination.
   */
  lemma FreshTagSurvives(le: Order, es: seq<Entry>, level: nat, i: nat, ran: set<seq<Value>>)
    requires TotalOrder(le) && ValidEntries(es) && level < 4
    requires forall e :: e in es ==> e.test.Name? && Values(Level(level), e) in ran
    requires i < |Summaries(le, Level(level), NoPeriod, es)|
    requires var s := Summaries(le, Level(level), NoPeriod, es)[i];
             forall name :: name in Known([s.task, s.variant, s.distro]) ==> Clean(name)
    ensures var s := Summaries(le, Level(level), NoPeriod, es)[i];
            && s.test.Name?
            && !ShouldBeRemoved(s.test.name, UnreliableTag(s.task, s.variant, s.distro), Level(level), ran)
  {
    hide Summaries, ShouldBeRemoved, UnreliableTag, Known, ValidEntries, TotalOrder;
    var s := Summaries(le, Level(level), NoPeriod, es)[i];
    var e := SummaryHasEntry(le, Level(level), es, i);
    assert s.test == Values(Level(level), s)[0] == Values(Level(level), e)[0] == e.test;
    RunCombinationKeepsTag(s, level, ran);
  }
}
