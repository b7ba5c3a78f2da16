/** Failure rates and the two tests on them, told by the numbers of runs and failures. */
module FailureRates {
  import opened LifecycleTags
  import opened ReportEntries
  import opened TagChangelog

  function Runs(e: Entry): int {
    e.numPass + e.numFail
  }

  /** The rate is the share of failures among the runs, and zero without runs. */
  lemma FailRateIsShare(e: Entry)
    requires OfOneTest(e)
    ensures FailRate(e) * Runs(e) as real == e.numFail as real
    ensures 0.0 <= FailRate(e) <= 1.0
    ensures Runs(e) == 0 ==> FailRate(e) == 0.0
  {
    if Runs(e) > 0 {
      ShareIsBounded(e.numFail as real, Runs(e) as real);
    }
  }

  lemma ShareIsBounded(part: real, whole: real)
    requires 0.0 <= part <= whole && whole > 0.0
    ensures part / whole * whole == part && 0.0 <= part / whole <= 1.0
  {
    var q := part / whole;
    assert q * whole == part;
  }

  lemma ScaleComparison(x: real, y: real, n: real)
    requires n > 0.0
    ensures x >= y <==> x * n >= y * n
    ensures x <= y <==> x * n <= y * n
  {
    if x > y {
      assert (x - y) * n > 0.0;
    } else if x < y {
      assert (y - x) * n > 0.0;
    }
  }

  // ----- The tests -----

  predicate UnreliableTest(rate: real, unacceptable: real, runs: int, minRun: int) {
    runs >= minRun && rate >= unacceptable
  }

  predicate ReliableTest(rate: real, acceptable: real, runs: int, minRun: int) {
    runs < minRun || rate <= acceptable
  }

  /** At least the given share of the runs failed; without runs, at least a share of zero did. */
  predicate FailsAtLeast(e: Entry, share: real) {
    if Runs(e) == 0 then share <= 0.0 else e.numFail as real >= share * Runs(e) as real
  }

  predicate FailsAtMost(e: Entry, share: real) {
    if Runs(e) == 0 then share >= 0.0 else e.numFail as real <= share * Runs(e) as real
  }

  lemma RateIffShare(e: Entry, share: real)
    requires OfOneTest(e)
    ensures FailRate(e) >= share <==> FailsAtLeast(e, share)
    ensures FailRate(e) <= share <==> FailsAtMost(e, share)
  {
    FailRateIsShare(e);
    if Runs(e) > 0 {
      hide FailRate;
      ScaleComparison(FailRate(e), share, Runs(e) as real);
    }
  }

  predicate Unreliable(e: Entry, share: real, minRun: int) {
    Runs(e) >= minRun && FailsAtLeast(e, share)
  }

  predicate Reliable(e: Entry, share: real, minRun: int) {
    Runs(e) < minRun || FailsAtMost(e, share)
  }

  lemma MeetsIff(e: Entry, share: real, minRun: int)
    requires OfOneTest(e)
    ensures Meets(e, UnreliableTest, share, minRun) <==> Unreliable(e, share, minRun)
    ensures Meets(e, ReliableTest, share, minRun) <==> Reliable(e, share, minRun)
  {
    hide FailRate, FailsAtLeast, FailsAtMost;
    RateIffShare(e, share);
  }

  // ----- The passes -----

  /** The pass with the first test leaves the tags there were and those of summaries with enough runs and failures. */
  lemma UnreliablePassTags(report: seq<Entry>, share: real, minRun: int, tags: set<Tag>, t: Tag)
    requires forall i :: 0 <= i < |report| ==> OfOneTest(report[i])
    ensures t in TagsAfter(Edits(report, UnreliableTest, true, share, minRun), tags) <==>
            t in tags || exists i :: 0 <= i < |report| && Unreliable(report[i], share, minRun) && TagOf(report[i]) == t
  {
    hide Edits, TagsAfter, Meets, Unreliable, TagOf;
    PassEditsExactly(report, UnreliableTest, true, share, minRun, tags);
    forall i | 0 <= i < |report|
      ensures Meets(report[i], UnreliableTest, share, minRun) <==> Unreliable(report[i], share, minRun)
    {
      MeetsIff(report[i], share, minRun);
    }
  }

  /** The pass with the second test leaves the tags of no summary with too few runs or few enough failures. */
  lemma ReliablePassUntags(report: seq<Entry>, share: real, minRun: int, tags: set<Tag>, t: Tag)
    requires forall i :: 0 <= i < |report| ==> OfOneTest(report[i])
    ensures t in TagsAfter(Edits(report, ReliableTest, false, share, minRun), tags) <==>
            t in tags && forall i :: 0 <= i < |report| && Reliable(report[i], share, minRun) ==> TagOf(report[i]) != t
  {
    hide Edits, TagsAfter, Meets, Reliable, TagOf;
    PassEditsExactly(report, ReliableTest, false, share, minRun, tags);
    forall i | 0 <= i < |report|
      ensures Meets(report[i], ReliableTest, share, minRun) <==> Reliable(report[i], share, minRun)
    {
      MeetsIff(report[i], share, minRun);
    }
  }

  /**
    With rates in the order that the configuration demands, one summary meets both tests only if
    it ran less than the second demands, or if the rates are the same and are just its own.
   */
  lemma MeetsBothIff(e: Entry, acceptable: real, unacceptable: real, minUnreliable: int, minReliable: int)
    requires OfOneTest(e) && acceptable <= unacceptable
    ensures Unreliable(e, unacceptable, minUnreliable) && Reliable(e, acceptable, minReliable) <==>
            && Runs(e) >= minUnreliable && FailsAtLeast(e, unacceptable)
            && (Runs(e) < minReliable || (acceptable == unacceptable && FailsAtMost(e, unacceptable)))
  {
    hide FailRate, FailsAtLeast, FailsAtMost;
    RateIffShare(e, unacceptable);
    RateIffShare(e, acceptable);
  }
}
