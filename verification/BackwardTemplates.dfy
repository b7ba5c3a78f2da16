/**
  Exactly which template argument lists the backward matcher accepts: read from right to left
  and turned around, they are those of the same grammar.
 */
module BackwardTemplates {
  import opened ExpressionMatcher
  import opened BackwardMatching
  import opened Sequences
  import opened TemplateGrammar
  import opened TextOfLines

  // ----- A file read backwards -----

  /** The turned tokens of `line[..k]` from its end.  What a step skips counts as two plain characters. */
  function ReadBack(line: string, k: nat): (r: seq<Token>)
    requires k <= |line|
    ensures |r| == k
  {
    if k == 0 then []
    else if SkipsTwo(line, k - 1) then [Other, Other] + ReadBack(line, k - 2)
    else [TurnToken(BackwardToken(line, k - 1))] + ReadBack(line, k - 1)
  }

  /** The turned tokens of everything in front of column `k` of line `n`, from there to the start of the file. */
  function ReadBackFrom(lines: seq<string>, n: nat, k: nat): (r: seq<Token>)
    requires n < |lines| && k <= |lines[n]|
    ensures |r| == Offset(lines, n) + k
  {
    ReadBack(lines[n], k) + if n == 0 then [] else ReadBackFrom(lines, n - 1, |lines[n - 1]|)
  }

  lemma {:induction false} ReadBackIsTokens(line: string, k: nat)
    requires k <= |line|
    ensures AreTokens(ReadBack(line, k))
  {
    hide EndsInOperator;
    if k > 0 {
      ReadBackIsTokens(line, if SkipsTwo(line, k - 1) then k - 2 else k - 1);
    }
  }

  lemma {:induction false} ReadBackFromIsTokens(lines: seq<string>, n: nat, k: nat)
    requires n < |lines| && k <= |lines[n]|
    ensures AreTokens(ReadBackFrom(lines, n, k))
  {
    hide ReadBack;
    ReadBackIsTokens(lines[n], k);
    if n > 0 {
      ReadBackFromIsTokens(lines, n - 1, |lines[n - 1]|);
    }
  }

  // ----- The backward matcher over tokens -----

  /** One step, as one or two moves. */
  lemma StepIsMoves(line: string, k: nat, stack: seq<char>, tokens: seq<Token>, at: nat)
    requires 0 < k <= |line| && stack != [] && BackStack(stack)
    requires at + k <= |tokens| && tokens[at..at + k] == ReadBack(line, k)
    ensures var next := if SkipsTwo(line, k - 1) then k - 2 else k - 1;
            && tokens[at + k - next..at + k] == ReadBack(line, next)
            && match BackwardStep(line, k - 1, stack)
               case Continue(st) =>
                 && st != [] && BackStack(st)
                 && Moves(tokens, at, TurnStack(stack)) == Moves(tokens, at + k - next, TurnStack(st))
               case Found(b) => b == k - 1 && !SkipsTwo(line, k - 1) && Moves(tokens, at, TurnStack(stack)) == Found(at + 1)
               case Failed => Moves(tokens, at, TurnStack(stack)) == Failed
  {
    hide SkipsTwo, BackwardMove, TurnStack, BackStack;
    if SkipsTwo(line, k - 1) {
      ConcatSlices(tokens, at, k, [Other, Other], ReadBack(line, k - 2));
      assert tokens[at] == tokens[at..at + 2][0] && tokens[at + 1] == tokens[at..at + 2][1];
      MoveTurned(Other, k - 1, at, stack);
      hide Moves, ForwardMove;
      WordIsPassed(tokens, at, TurnStack(stack));
      WordIsPassed(tokens, at + 1, TurnStack(stack));
      OtherStays(k - 1, stack);
    } else {
      var token := BackwardToken(line, k - 1);
      ConcatSlices(tokens, at, k, [TurnToken(token)], ReadBack(line, k - 1));
      assert tokens[at] == tokens[at..at + 1][0];
      MoveTurned(token, k - 1, at, stack);
      hide ForwardMove;
      MoveKeepsStack(token, k - 1, stack);
    }
  }

  lemma OtherStays(i: nat, stack: seq<char>)
    ensures BackwardMove(Other, i, stack) == Continue(stack)
  {
  }

  lemma MoveKeepsStack(token: Token, i: nat, stack: seq<char>)
    requires stack != []
    ensures BackwardMove(token, i, stack).Continue? ==> BackwardMove(token, i, stack).stack != []
  {
  }

  lemma ConcatSlices(tokens: seq<Token>, at: nat, k: nat, a: seq<Token>, b: seq<Token>)
    requires at + k <= |tokens| && tokens[at..at + k] == a + b
    ensures |a| + |b| == k && tokens[at..at + |a|] == a && tokens[at + |a|..at + k] == b
  {
    SliceSplit(tokens, at, at + |a|, at + k);
    ConcatSplit(tokens[at..at + |a|], tokens[at + |a|..at + k], a, b);
  }

  lemma {:induction false} LineIsMoves(line: string, k: nat, stack: seq<char>, tokens: seq<Token>, at: nat)
    requires k <= |line| && stack != [] && BackStack(stack)
    requires at + k <= |tokens| && tokens[at..at + k] == ReadBack(line, k)
    ensures match BackwardScan(line, k, stack)
            case Found(b) => b < k && Moves(tokens, at, TurnStack(stack)) == Found(at + k - b)
            case Failed => Moves(tokens, at, TurnStack(stack)) == Failed
            case Continue(st) =>
              st != [] && BackStack(st) && Moves(tokens, at, TurnStack(stack)) == Moves(tokens, at + k, TurnStack(st))
  {
    hide SkipsTwo, BackwardStep, TurnStack, BackStack, ReadBack, Moves;
    if k > 0 {
      StepIsMoves(line, k, stack, tokens, at);
      var next := if SkipsTwo(line, k - 1) then k - 2 else k - 1;
      var r := BackwardStep(line, k - 1, stack);
      if r.Continue? {
        LineIsMoves(line, next, r.stack, tokens, at + k - next);
      }
    }
  }

  lemma SplitReadBack(lines: seq<string>, n: nat, k: nat, tokens: seq<Token>, at: nat)
    requires n < |lines| && k <= |lines[n]| && at <= |tokens| && tokens[at..] == ReadBackFrom(lines, n, k)
    ensures at + k <= |tokens| && tokens[at..at + k] == ReadBack(lines[n], k)
    ensures if n == 0 then at + k == |tokens| else tokens[at + k..] == ReadBackFrom(lines, n - 1, |lines[n - 1]|)
  {
    hide ReadBack;
    if n == 0 {
      assert ReadBack(lines[n], k) + [] == ReadBackFrom(lines, n, k);
      SuffixSplit(tokens, at, ReadBack(lines[n], k), []);
    } else {
      SuffixSplit(tokens, at, ReadBack(lines[n], k), ReadBackFrom(lines, n - 1, |lines[n - 1]|));
    }
  }

  lemma NoMoves(tokens: seq<Token>, stack: seq<char>)
    ensures Moves(tokens, |tokens|, stack) == Continue(stack)
  {
  }

  lemma {:induction false} FromIsMoves(lines: seq<string>, n: nat, k: nat, stack: seq<char>, tokens: seq<Token>, at: nat)
    requires n < |lines| && k <= |lines[n]| && stack != [] && BackStack(stack)
    requires at <= |tokens| && tokens[at..] == ReadBackFrom(lines, n, k)
    ensures var r, m := BackwardFrom(lines, n, k, stack), Moves(tokens, at, TurnStack(stack));
            if !m.Found? then r.pos == -1
            else
              && r.linenum < |lines| && r.line == lines[r.linenum] && 0 <= r.pos < |r.line|
              && m.pos == at + Offset(lines, n) + k - (Offset(lines, r.linenum) + r.pos)
  {
    hide BackwardScan, TurnStack, BackStack, ReadBack, ReadBackFrom, Moves;
    SplitReadBack(lines, n, k, tokens, at);
    LineIsMoves(lines[n], k, stack, tokens, at);
    match BackwardScan(lines[n], k, stack)
    case Found(b) =>
    case Failed =>
    case Continue(st) =>
      if n > 0 {
        FromIsMoves(lines, n - 1, |lines[n - 1]|, st, tokens, at + k);
      } else {
        NoMoves(tokens, TurnStack(st));
      }
  }

  // ----- The result -----

  /** The tokens read backwards from the `>` at column `q` of line `n`, itself included. */
  function BackTokens(lines: seq<string>, n: nat, q: nat): (r: seq<Token>)
    requires n < |lines| && q < |lines[n]|
    ensures |r| == 1 + Offset(lines, n) + q
  {
    [AngleIn] + ReadBackFrom(lines, n, q)
  }

  /** The backward search from an angle, as moves over these tokens. */
  lemma ReverseIsMoves(lines: seq<string>, n: nat, q: nat)
    requires n < |lines| && q < |lines[n]| && lines[n][q] == '>' && !IgnoredAngle(lines[n], q)
    ensures AreTokens(BackTokens(lines, n, q))
    ensures var r, m := Reverse(lines, n, q), Moves(BackTokens(lines, n, q), 1, ['<']);
            if !m.Found? then r.pos == -1
            else
              && r.linenum < |lines| && r.line == lines[r.linenum] && 0 <= r.pos < |r.line|
              && m.pos == 1 + Offset(lines, n) + q - (Offset(lines, r.linenum) + r.pos)
  {
    var tokens := BackTokens(lines, n, q);
    ReadBackFromIsTokens(lines, n, q);
    assert tokens[1..] == ReadBackFrom(lines, n, q);
    assert TurnStack(['>']) == ['<'];
    hide Reverse, ReadBackFrom, Moves, BackwardFrom, IgnoredAngle, Offset;
    ReverseStarts(lines, n, q);
    FromIsMoves(lines, n, q, ['>'], tokens, 1);
  }

  /**
    From a `>` that is no operator, `Reverse` returns a position exactly when the tokens read back
    to it are one template group.
   */
  lemma ReverseIffTemplateGroup(lines: seq<string>, n: nat, q: nat, n': nat, p: nat)
    requires n < |lines| && q < |lines[n]| && lines[n][q] == '>' && !IgnoredAngle(lines[n], q)
    requires n' < |lines| && p < |lines[n']|
    ensures var b, e := Offset(lines, n') + p, Offset(lines, n) + q;
            Reverse(lines, n, q) == Place(lines[n'], n', p) <==> b < e && TemplateGroup(BackTokens(lines, n, q)[..e - b + 1])
  {
    hide *;
    var tokens, b, e, r := BackTokens(lines, n, q), Offset(lines, n') + p, Offset(lines, n) + q, Reverse(lines, n, q);
    ReverseIsMoves(lines, n, q);
    StartsWithAngle(lines, n, q);
    if b < e {
      MovesFindTheTemplate(tokens, 0, e - b + 1);
      assert tokens[0..e - b + 1] == tokens[..e - b + 1];
    }
    var m := Moves(tokens, 1, ['<']);
    if m.Found? {
      MovesFindTheTemplate(tokens, 0, m.pos);
      TemplateIsLong(tokens[0..m.pos]);
      if Offset(lines, r.linenum) + r.pos == b {
        OffsetInjective(lines, r.linenum, r.pos, n', p);
      }
    }
  }

  lemma StartsWithAngle(lines: seq<string>, n: nat, q: nat)
    requires n < |lines| && q < |lines[n]|
    ensures BackTokens(lines, n, q)[0] == AngleIn
  {
  }

  lemma TemplateIsLong(tokens: seq<Token>)
    requires TemplateGroup(tokens)
    ensures |tokens| >= 2
  {
  }

  /** And it fails exactly when there is none. */
  lemma ReverseFailsIffNoTemplate(lines: seq<string>, n: nat, q: nat)
    requires n < |lines| && q < |lines[n]| && lines[n][q] == '>' && !IgnoredAngle(lines[n], q)
    ensures var tokens := BackTokens(lines, n, q);
            Reverse(lines, n, q).pos < 0 <==> forall e :: 0 < e <= |tokens| ==> !TemplateGroup(tokens[0..e])
  {
    hide *;
    var tokens := BackTokens(lines, n, q);
    ReverseIsMoves(lines, n, q);
    StartsWithAngle(lines, n, q);
    var m := Moves(tokens, 1, ['<']);
    forall e | 0 < e <= |tokens|
      ensures TemplateGroup(tokens[0..e]) <==> m == Found(e)
    {
      MovesFindTheTemplate(tokens, 0, e);
    }
    if m.Found? {
      MovesFindTheTemplate(tokens, 0, m.pos);
    }
  }
}
