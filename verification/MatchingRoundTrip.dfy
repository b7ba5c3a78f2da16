/** The forward and the backward matcher undo each other. */
module MatchingRoundTrip {
  import opened BracketWords
  import opened ExpressionMatcher
  import opened Sequences
  import opened TextOfLines
  import opened ForwardMatching
  import opened BackwardMatching

  /**
    `Close` takes the opener to a place exactly when that place is behind a closing bracket from
    which `Reverse` comes back to the opener, whatever angles, arrows, shifts, operators or
    semicolons lie between.
   */
  lemma CloseUndoneByReverse(lines: seq<string>, n: nat, p: nat, n': nat, q: nat)
    requires n < |lines| && p < |lines[n]| && Opener(lines[n][p])
    requires n' < |lines| && 0 < q <= |lines[n']|
    ensures Close(lines, n, p) == Place(lines[n'], n', q) <==>
            Closer(lines[n'][q - 1]) && Reverse(lines, n', q - 1) == Place(lines[n], n, p)
  {
    hide Close, Reverse;
    var text, b, e := Flatten(lines), Offset(lines, n) + p, Offset(lines, n') + q;
    FlatLaidOut(lines);
    CharInText(lines, text, n', q - 1);
    CharInText(lines, text, n, p);
    CloseIffGroup(lines, n, p, n', q);
    if Closer(lines[n'][q - 1]) {
      ReverseIffGroup(lines, n, p, n', q - 1);
    } else if b < e {
      assert text[b..e][e - b - 1] == text[e - 1] && text[b..e][0] == text[b];
    }
  }

  lemma {:induction false} AngleStartStaysAngle(line: string, k: nat, stack: seq<char>)
    requires k <= |line| && stack != [] && stack[0] == '>'
    ensures match BackwardScan(line, k, stack)
            case Found(b) => b < k && line[b] == '<'
            case Failed => true
            case Continue(st) => st != [] && st[0] == '>'
  {
    if k > 0 {
      var r := BackwardStep(line, k - 1, stack);
      if r.Continue? {
        AngleStartStaysAngle(line, if SkipsTwo(line, k - 1) then k - 2 else k - 1, r.stack);
      }
    }
  }

  lemma {:induction false} AngleStartFindsAngle(lines: seq<string>, n: nat, k: nat, stack: seq<char>)
    requires n < |lines| && k <= |lines[n]| && stack != [] && stack[0] == '>'
    ensures var r := BackwardFrom(lines, n, k, stack);
            r.pos >= 0 ==> r.linenum < |lines| && r.pos < |lines[r.linenum]| && lines[r.linenum][r.pos] == '<'
  {
    AngleStartStaysAngle(lines[n], k, stack);
    var r := BackwardScan(lines[n], k, stack);
    if r.Continue? && n > 0 {
      AngleStartFindsAngle(lines, n - 1, |lines[n - 1]|, r.stack);
    }
  }

  // ----- Starts that are no closing bracket -----

  /** A token that changes nothing on an empty stack. */
  predicate Idle(token: Token) {
    token == Other || token == AngleOut
  }

  /** Where the backward matcher, with nothing on its stack yet, first meets something to do. */
  function Resume(line: string, k: nat): (r: nat)
    requires k <= |line|
    ensures r <= k
    ensures r > 0 ==> !Idle(BackwardToken(line, r - 1))
  {
    if k == 0 || !Idle(BackwardToken(line, k - 1)) then k
    else Resume(line, if SkipsTwo(line, k - 1) then k - 2 else k - 1)
  }

  /** The same, from the left of the operator that ends in the `>` at `q`. */
  function Left(line: string, q: nat): (r: nat)
    requires q < |line|
    ensures r <= q
    ensures r > 0 ==> !Idle(BackwardToken(line, r - 1))
  {
    if q == 0 then 0 else Resume(line, q - 1)
  }

  lemma {:induction false} ScanResumes(line: string, k: nat)
    requires k <= |line|
    ensures BackwardScan(line, k, []) == BackwardScan(line, Resume(line, k), [])
  {
    if k > 0 && Idle(BackwardToken(line, k - 1)) {
      hide EndsInOperator;
      ScanResumes(line, if SkipsTwo(line, k - 1) then k - 2 else k - 1);
    }
  }

  /** On an empty stack, an opener or a semicolon ends the search. */
  lemma ScanStops(line: string, k: nat)
    requires 0 < k <= |line| && !Idle(BackwardToken(line, k - 1)) && !Closer(line[k - 1]) && line[k - 1] != '>'
    ensures BackwardScan(line, k, []) == Failed
  {
    hide SkipsTwo;
    assert DropAngles([], '>') == [];
  }

  lemma SkipsOverOperator(line: string, q: nat)
    requires q < |line| && line[q] == '>' && IgnoredAngle(line, q)
    ensures BackwardScan(line, q + 1, []) == BackwardScan(line, Left(line, q), [])
  {
    assert q > 0;
    hide IgnoredAngle;
    assert SkipsTwo(line, q) && BackwardScan(line, q + 1, []) == BackwardScan(line, q - 1, []);
    hide BackwardScan;
    ScanResumes(line, q - 1);
  }

  /**
    From a `>` that it takes for an operator, the backward matcher goes on to the left as if it
    had been started at the first closing bracket or angle it meets; if it meets none before an
    opener, a semicolon or the start of the line, it gives up.
   */
  lemma ReverseResumes(lines: seq<string>, n: nat, q: nat)
    requires n < |lines| && q < |lines[n]| && lines[n][q] == '>' && IgnoredAngle(lines[n], q)
    ensures var line, k := lines[n], Left(lines[n], q);
            Reverse(lines, n, q) ==
            if k > 0 && (Closer(line[k - 1]) || line[k - 1] == '>') then Reverse(lines, n, k - 1)
            else Place(line, 0, -1)
  {
    hide IgnoredAngle, BackwardStep, Resume, Idle, BackwardToken;
    var line, k := lines[n], Left(lines[n], q);
    SkipsOverOperator(line, q);
    if k > 0 && !Closer(line[k - 1]) && line[k - 1] != '>' {
      hide BackwardScan;
      ScanStops(line, k);
    }
  }

  /** A `>` taken for an operator, with a closing bracket as the first thing to its left that counts. */
  predicate BehindCloser(line: string, q: nat)
    requires q < |line|
  {
    && line[q] == '>' && IgnoredAngle(line, q)
    && var k := Left(line, q);
       k > 0 && Closer(line[k - 1])
  }

  lemma BehindCloserIs(line: string, q: nat)
    requires q < |line|
    ensures BehindCloser(line, q) ==> Left(line, q) > 0 && Closer(line[Left(line, q) - 1])
  {
  }

  /** From a start that is no closing bracket, an opener is reached exactly when it is reached from that bracket. */
  lemma ReverseReachesOpenerIff(lines: seq<string>, n: nat, q: nat, n': nat, p: nat)
    requires n < |lines| && q < |lines[n]| && !Closer(lines[n][q])
    requires n' < |lines| && p < |lines[n']| && Opener(lines[n'][p])
    ensures Reverse(lines, n, q) == Place(lines[n'], n', p) <==>
            BehindCloser(lines[n], q) && Reverse(lines, n, Left(lines[n], q) - 1) == Place(lines[n'], n', p)
  {
    var line := lines[n];
    if line[q] != '>' {
    } else if !IgnoredAngle(line, q) {
      AngleReachesNoOpener(lines, n, q);
    } else {
      ReverseResumes(lines, n, q);
      var k := Left(line, q);
      if k > 0 && line[k - 1] == '>' {
        AngleReachesNoOpener(lines, n, k - 1);
      }
    }
  }

  lemma AngleReachesNoOpener(lines: seq<string>, n: nat, q: nat)
    requires n < |lines| && q < |lines[n]| && lines[n][q] == '>' && !IgnoredAngle(lines[n], q)
    ensures var r := Reverse(lines, n, q);
            r.pos >= 0 ==> r.linenum < |lines| && r.pos < |lines[r.linenum]| && lines[r.linenum][r.pos] == '<'
  {
    ReverseStarts(lines, n, q);
    AngleStartFindsAngle(lines, n, q, ['>']);
  }

  // ----- Exactly where the round trip fails -----

  /** For this end, each opener is taken to it exactly when it is taken back to the opener. */
  ghost predicate RoundTripAt(lines: seq<string>, n': nat, q: nat)
    requires n' < |lines| && q < |lines[n']|
  {
    forall n, p :: 0 <= n < |lines| && 0 <= p < |lines[n]| && Opener(lines[n][p]) ==>
      (Close(lines, n, p) == Place(lines[n'], n', q + 1) <==> Reverse(lines, n', q) == Place(lines[n], n, p))
  }

  /**
    Without the condition on the end character the round trip fails at exactly those ends that
    are a `>` taken for an operator, have a closing bracket as the first thing to their left that
    counts, and have a bracket group ending in that bracket.
   */
  lemma RoundTripIff(lines: seq<string>, n: nat, q: nat)
    requires n < |lines| && q < |lines[n]|
    ensures BehindCloser(lines[n], q) ==> Offset(lines, n) + Left(lines[n], q) <= |Flatten(lines)|
    ensures RoundTripAt(lines, n, q) <==>
            !(BehindCloser(lines[n], q) && EndsGroup(Flatten(lines), Offset(lines, n) + Left(lines[n], q)))
  {
    hide Close, Reverse, Left, Resume, BehindCloser, Flatten, Offset, Group;
    BehindCloserIs(lines[n], q);
    if Closer(lines[n][q]) {
      CloserIsNotBehind(lines[n], q);
      forall n0, p | 0 <= n0 < |lines| && 0 <= p < |lines[n0]| && Opener(lines[n0][p])
        ensures Close(lines, n0, p) == Place(lines[n], n, q + 1) <==> Reverse(lines, n, q) == Place(lines[n0], n0, p)
      {
        CloseUndoneByReverse(lines, n0, p, n, q + 1);
      }
    } else {
      forall n0, p | 0 <= n0 < |lines| && 0 <= p < |lines[n0]| && Opener(lines[n0][p])
        ensures Close(lines, n0, p) != Place(lines[n], n, q + 1)
        ensures Reverse(lines, n, q) == Place(lines[n0], n0, p) <==>
                BehindCloser(lines[n], q) && Reverse(lines, n, Left(lines[n], q) - 1) == Place(lines[n0], n0, p)
      {
        CloseUndoneByReverse(lines, n0, p, n, q + 1);
        ReverseReachesOpenerIff(lines, n, q, n0, p);
      }
      if BehindCloser(lines[n], q) {
        var k := Left(lines[n], q);
        ReverseFailsIffNoGroup(lines, n, k - 1);
        CloserReachesOpener(lines, n, k - 1);
      }
    }
  }

  lemma CloserIsNotBehind(line: string, q: nat)
    requires q < |line| && Closer(line[q])
    ensures !BehindCloser(line, q)
  {
  }

  /** From a closing bracket, the place returned is that of an opener. */
  lemma CloserReachesOpener(lines: seq<string>, n: nat, q: nat)
    requires n < |lines| && q < |lines[n]| && Closer(lines[n][q])
    ensures var r := Reverse(lines, n, q);
            r.pos >= 0 ==>
              && r.linenum < |lines| && r.pos < |lines[r.linenum]| && Opener(lines[r.linenum][r.pos])
              && r == Place(lines[r.linenum], r.linenum, r.pos)
  {
    hide Reverse, Scan, Flatten, Offset;
    var text, e, r := Flatten(lines), Offset(lines, n) + q + 1, Reverse(lines, n, q);
    FlatLaidOut(lines);
    CharInText(lines, text, n, q);
    ReverseIsPlainMatching(lines, n, q);
    if r.pos >= 0 {
      var b := Offset(lines, r.linenum) + r.pos;
      CharInText(lines, text, r.linenum, r.pos);
      ReverseIffGroup(lines, r.linenum, r.pos, n, q);
      assert text[b..e][0] == text[b];
    }
  }

  const ARROW_LINE := "(x)->"

  lemma ArrowLineForward()
    ensures ForwardScan(ARROW_LINE, 0, []) == Found(3)
  {
    hide EndsInOperator;
    assert ForwardStep(ARROW_LINE, 0, []) == Continue(['(']);
    assert ForwardStep(ARROW_LINE, 1, ['(']) == Continue(['(']);
    assert DropAngles(['('], '<') == ['('] && ForwardStep(ARROW_LINE, 2, ['(']) == Found(3);
    hide ForwardStep;
    assert ForwardScan(ARROW_LINE, 2, ['(']) == Found(3);
    assert ForwardScan(ARROW_LINE, 1, ['(']) == Found(3);
  }

  lemma ArrowLineBackward()
    ensures IgnoredAngle(ARROW_LINE, 4) && Left(ARROW_LINE, 4) == 3
  {
    hide EndsInOperator;
    assert ARROW_LINE[2] == ')' && BackwardToken(ARROW_LINE, 2) == Bracket(')');
  }

  /** The family is not empty. */
  lemma RoundTripFailsWitness()
    ensures var lines := [ARROW_LINE];
            && Close(lines, 0, 0) == Place(lines[0], 0, 3)
            && Reverse(lines, 0, 4) == Place(lines[0], 0, 0)
  {
    var lines := [ARROW_LINE];
    assert ARROW_LINE[0] == '(' && ARROW_LINE[2] == ')' && ARROW_LINE[4] == '>';
    ArrowLineForward();
    ArrowLineBackward();
    hide Reverse, BackwardScan, ForwardScan, IgnoredAngle, Left, LessOrShift;
    assert !LessOrShift(ARROW_LINE, 0) by {
      NoLess(ARROW_LINE, 0);
    }
    ReverseResumes(lines, 0, 4);
    CloseUndoneByReverse(lines, 0, 0, 0, 3);
  }

  lemma NoLess(line: string, p: nat)
    requires p < |line| && line[p] != '<'
    ensures !LessOrShift(line, p)
  {
  }
}
