/**
  The template argument lists that the backward matcher accepts, told by the characters alone.

  Read from the right, left shifts take their two characters at a time, so a `<` counts exactly
  when it starts a run of an odd number of them; a `>` counts unless it belongs to an arrow, to a
  spaced `>=`, or to the word `operator` in front of it.
 */
module BackwardText {
  import opened BackwardMatching
  import opened BackwardTemplates
  import opened BracketWords
  import opened ExpressionMatcher
  import opened TemplateGrammar
  import opened TemplateMirror
  import opened TemplateText
  import opened TextOfLines

  // ----- Which angles count -----

  /** ` >= ` around the `>` at `i`. */
  predicate SpacedAtLeast(line: string, i: nat) {
    0 < i && i + 3 <= |line| && IsSpace(line[i - 1]) && line[i..i + 2] == ">=" && IsSpace(line[i + 2])
  }

  lemma IgnoredAngleIff(line: string, i: nat)
    requires i < |line| && line[i] == '>'
    ensures IgnoredAngle(line, i) <==>
            Behind(Mark(line[..i], line[i]), '-') || SpacedAtLeast(line, i) || AfterOperator(line[..i])
  {
    EndsInOperatorIff(line[..i]);
    NoOperatorInNothing();
    assert i == 0 ==> line[..i] == [];
    assert i > 0 ==> line[..i][i - 1] == line[i - 1];
    if i + 3 <= |line| {
      assert line[i..i + 2] == [line[i], line[i + 1]];
    }
    hide EndsInOperator, AfterOperator;
  }

  /** How many `<` stand in a row from `i` on. */
  function RunOfLess(line: string, i: nat): nat
    requires i <= |line|
    decreases |line| - i
  {
    if i < |line| && line[i] == '<' then 1 + RunOfLess(line, i + 1) else 0
  }

  predicate OpensBack(line: string, i: nat)
    requires i < |line|
  {
    line[i] == '<' && (i == 0 || line[i - 1] != '<') && RunOfLess(line, i) % 2 == 1
  }

  ghost predicate ClosesBack(line: string, i: nat)
    requires i < |line|
  {
    && line[i] == '>' && (i == 0 || line[i - 1] != '-')
    && !SpacedAtLeast(line, i) && !AfterOperator(line[..i])
  }

  /** What a character is, in reading order. */
  ghost function Seen(line: string, i: nat): Token
    requires i < |line|
  {
    var c := line[i];
    if Opener(c) || Closer(c) then Bracket(c)
    else if OpensBack(line, i) then AngleIn
    else if ClosesBack(line, i) then AngleOut
    else if c == ';' then Semicolon
    else Other
  }

  ghost function LineSeen(line: string): (r: seq<Token>)
    ensures |r| == |line|
  {
    seq(|line|, i requires 0 <= i < |line| => Seen(line, i))
  }

  /** What stands in front of column `k` of line `n`, from the start of the file. */
  ghost function SeenBefore(lines: seq<string>, n: nat, k: nat): (r: seq<Token>)
    requires n < |lines| && k <= |lines[n]|
    ensures |r| == Offset(lines, n) + k
  {
    (if n == 0 then [] else SeenBefore(lines, n - 1, |lines[n - 1]|)) + LineSeen(lines[n])[..k]
  }

  // ----- Reading a line backwards -----

  /** Reading reaches `k` without a `<` before it whose partner in a shift is still to come. */
  predicate Whole(line: string, k: nat)
    requires k <= |line|
  {
    k == 0 || line[k - 1] != '<' || RunOfLess(line, k) % 2 == 0
  }

  lemma OperatorEnds(s: string)
    requires AfterOperator(s)
    ensures s != [] && (IsSpace(s[|s| - 1]) || s[|s| - 1] == 'r')
  {
    var k: nat, m: nat :| OperatorAt(s, k, m);
    assert s[m - 1] == s[k..m][7] == "operator"[7];
    assert m < |s| ==> s[|s| - 1] == s[m..][|s| - 1 - m];
  }

  lemma IgnoredAngleCloses(line: string, i: nat)
    requires i < |line| && line[i] == '>'
    ensures IgnoredAngle(line, i) <==> !ClosesBack(line, i)
  {
    hide IgnoredAngle, AfterOperator, SpacedAtLeast;
    IgnoredAngleIff(line, i);
    assert i > 0 ==> line[..i][i - 1] == line[i - 1];
  }

  /** What an ignored `>` takes with it is a plain character. */
  lemma BeforeIgnored(line: string, i: nat)
    requires i < |line| && line[i] == '>' && IgnoredAngle(line, i)
    ensures i > 0 && Seen(line, i) == Seen(line, i - 1) == Other && line[i - 1] != '<'
  {
    hide IgnoredAngle, AfterOperator;
    IgnoredAngleCloses(line, i);
    IgnoredAngleIff(line, i);
    if AfterOperator(line[..i]) {
      OperatorEnds(line[..i]);
    }
    assert line[..i][i - 1] == line[i - 1];
  }

  lemma ShiftIsPlain(line: string, i: nat)
    requires 0 < i < |line| && line[i] == line[i - 1] == '<' && RunOfLess(line, i + 1) % 2 == 0
    ensures Seen(line, i) == Seen(line, i - 1) == Other && Whole(line, i - 1)
  {
    assert RunOfLess(line, i - 1) == 2 + RunOfLess(line, i + 1);
  }

  lemma SkippedIsPlain(line: string, k: nat)
    requires 0 < k <= |line| && Whole(line, k) && SkipsTwo(line, k - 1)
    ensures k > 1 && Seen(line, k - 1) == Seen(line, k - 2) == Other && Whole(line, k - 2)
  {
    if line[k - 1] == '>' {
      BeforeIgnored(line, k - 1);
      assert RunOfLess(line, k - 2) == 0;
    } else {
      ShiftIsPlain(line, k - 1);
    }
  }

  lemma ReadIsSeen(line: string, k: nat)
    requires 0 < k <= |line| && Whole(line, k) && !SkipsTwo(line, k - 1)
    ensures TurnToken(BackwardToken(line, k - 1)) == MirrorToken(Seen(line, k - 1)) && Whole(line, k - 1)
  {
    hide IgnoredAngle, ClosesBack;
    if line[k - 1] == '>' {
      IgnoredAngleCloses(line, k - 1);
    } else if line[k - 1] == '<' {
      assert RunOfLess(line, k - 1) == 1 + RunOfLess(line, k);
    } else {
      NoClosing(line, k - 1);
      assert RunOfLess(line, k - 1) == 0;
    }
  }

  lemma NoClosing(line: string, i: nat)
    requires i < |line| && line[i] != '>'
    ensures !ClosesBack(line, i)
  {
  }

  lemma {:induction false} ReadBackIsSeen(line: string, k: nat)
    requires k <= |line| && Whole(line, k)
    ensures ReadBack(line, k) == MirrorTokens(LineSeen(line)[..k])
  {
    hide SkipsTwo, BackwardToken, Seen, MirrorToken, TurnToken, Whole;
    var seen := LineSeen(line);
    if k > 0 {
      if SkipsTwo(line, k - 1) {
        SkippedIsPlain(line, k);
        ReadBackIsSeen(line, k - 2);
        assert seen[..k] == seen[..k - 2] + [Other, Other];
        MirrorTokensConcat(seen[..k - 2], [Other, Other]);
        MirrorOthers();
      } else {
        ReadIsSeen(line, k);
        ReadBackIsSeen(line, k - 1);
        assert seen[..k] == seen[..k - 1] + [seen[k - 1]];
        MirrorTokensConcat(seen[..k - 1], [seen[k - 1]]);
        MirrorTokensOne(seen[k - 1]);
      }
    }
  }

  lemma MirrorOthers()
    ensures MirrorTokens([Other, Other]) == [Other, Other]
  {
  }

  // ----- Reading a file backwards -----

  lemma WholeAtEnd(line: string)
    ensures Whole(line, |line|)
  {
  }

  lemma {:induction false} ReadBackFromIsSeen(lines: seq<string>, n: nat, k: nat)
    requires n < |lines| && k <= |lines[n]| && Whole(lines[n], k)
    ensures ReadBackFrom(lines, n, k) == MirrorTokens(SeenBefore(lines, n, k))
  {
    hide ReadBack, LineSeen, MirrorTokens, Whole;
    ReadBackIsSeen(lines[n], k);
    var here := LineSeen(lines[n])[..k];
    if n > 0 {
      WholeAtEnd(lines[n - 1]);
      ReadBackFromIsSeen(lines, n - 1, |lines[n - 1]|);
      MirrorTokensConcat(SeenBefore(lines, n - 1, |lines[n - 1]|), here);
    } else {
      assert [] + here == here && MirrorTokens(here) + [] == MirrorTokens(here);
    }
  }

  lemma BackTokensAreSeen(lines: seq<string>, n: nat, q: nat)
    requires n < |lines| && q < |lines[n]| && lines[n][q] == '>' && !IgnoredAngle(lines[n], q)
    ensures BackTokens(lines, n, q) == MirrorTokens(SeenBefore(lines, n, q + 1))
  {
    hide IgnoredAngle, ClosesBack, MirrorTokens, MirrorToken, ReadBackFrom;
    IgnoredAngleCloses(lines[n], q);
    var line := lines[n];
    assert Whole(line, q) by {
      assert RunOfLess(line, q) == 0;
    }
    ReadBackFromIsSeen(lines, n, q);
    var seen := LineSeen(line);
    assert seen[..q + 1] == seen[..q] + [seen[q]];
    assert SeenBefore(lines, n, q + 1) == SeenBefore(lines, n, q) + [AngleOut];
    MirrorTokensConcat(SeenBefore(lines, n, q), [AngleOut]);
    MirrorTokensOne(AngleOut);
    MirrorOut();
  }

  lemma MirrorOut()
    ensures MirrorToken(AngleOut) == AngleIn
  {
  }

  lemma {:induction false} NoShiftIsSeen(lines: seq<string>, n: nat, k: nat)
    requires n < |lines| && k <= |lines[n]|
    ensures Token.Shift !in SeenBefore(lines, n, k)
  {
    if n > 0 {
      NoShiftIsSeen(lines, n - 1, |lines[n - 1]|);
    }
  }

  lemma ClosingCounts(line: string, i: nat)
    requires i < |line| && ClosesBack(line, i)
    ensures line[i] == '>' && !IgnoredAngle(line, i)
  {
    IgnoredAngleCloses(line, i);
  }

  /** Read backwards or in order, the text between is a list or not. */
  lemma SeenListIff(lines: seq<string>, n: nat, q: nat, b: nat)
    requires n < |lines| && q < |lines[n]| && ClosesBack(lines[n], q) && b <= Offset(lines, n) + q
    ensures TemplateGroup(BackTokens(lines, n, q)[..Offset(lines, n) + q - b + 1]) <==>
            TemplateGroup(SeenBefore(lines, n, q + 1)[b..])
  {
    hide *;
    ClosingCounts(lines[n], q);
    var seen := SeenBefore(lines, n, q + 1);
    BackTokensAreSeen(lines, n, q);
    MirrorTokensSlice(seen, b);
    NoShiftIsSeen(lines, n, q + 1);
    MirrorTemplate(seen[b..]);
  }

  /** From a `>` that counts, the place returned is exactly the start of the list that ends there. */
  lemma ReverseIffSeenList(lines: seq<string>, n: nat, q: nat, n': nat, p: nat)
    requires n < |lines| && q < |lines[n]| && ClosesBack(lines[n], q)
    requires n' < |lines| && p < |lines[n']|
    ensures var b, e := Offset(lines, n') + p, Offset(lines, n) + q;
            Reverse(lines, n, q) == Place(lines[n'], n', p) <==>
            b < e && TemplateGroup(SeenBefore(lines, n, q + 1)[b..])
  {
    hide *;
    ClosingCounts(lines[n], q);
    ReverseIffTemplateGroup(lines, n, q, n', p);
    if Offset(lines, n') + p < Offset(lines, n) + q {
      SeenListIff(lines, n, q, Offset(lines, n') + p);
    }
  }
}
