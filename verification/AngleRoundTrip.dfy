/**
  On lines whose angles are all brackets, the two matchers undo each other from angles too.

  What keeps an angle from being a bracket is told by the characters around it: a shift, an
  arrow, a spaced `>=`, or the word `operator` in front.
 */
module AngleRoundTrip {
  import opened BackwardText
  import opened ExpressionMatcher
  import opened Sequences
  import opened TemplateGrammar
  import opened TemplateText
  import opened TextOfLines

  // ----- Which angles are brackets -----

  /** Every `<` of the line opens a list and every `>` closes one, in both directions of reading. */
  ghost predicate PlainAngles(line: string) {
    forall i :: 0 <= i < |line| ==> PlainAt(line, i)
  }

  ghost predicate PlainAt(line: string, i: nat)
    requires i < |line|
  {
    && (line[i] == '<' ==> OpensList(Mark(line[..i], line[i])))
    && (line[i] == '>' ==>
          ClosesList(Mark(line[..i], line[i])) && !SpacedAtLeast(line, i) && !AfterOperator(line[..i]))
  }

  ghost predicate AllPlain(lines: seq<string>) {
    forall n :: 0 <= n < |lines| ==> PlainAngles(lines[n])
  }

  lemma LineTokensInFile(lines: seq<string>, n: nat)
    requires n < |lines|
    ensures Offset(lines, n) + |lines[n]| <= |FileTokens(lines)|
    ensures FileTokens(lines)[Offset(lines, n)..Offset(lines, n) + |lines[n]|] == LineTokens(lines[n])
  {
    hide FileTokens, ForwardToken;
    FileIsTokenized(lines);
    OffsetMonotonic(lines, n + 1, |lines|);
    var lo := Offset(lines, n);
    forall i | 0 <= i < |lines[n]|
      ensures FileTokens(lines)[lo + i] == ForwardToken(lines[n], i)
    {
      assert TokenAt(lines, FileTokens(lines), n, i);
    }
  }

  lemma PrefixOfLine(tokens: seq<Token>, lo: nat, hi: nat, k: nat)
    requires lo <= hi <= |tokens| && k <= hi - lo
    ensures tokens[lo..hi][..k] == tokens[lo..lo + k] && tokens[..lo + k] == tokens[..lo] + tokens[lo..lo + k]
  {
    SliceOfSlice(tokens, lo, hi, 0, k);
    SliceSplit(tokens, 0, lo, lo + k);
    assert tokens[lo..hi][0..k] == tokens[lo..hi][..k];
    assert tokens[0..lo] == tokens[..lo] && tokens[0..lo + k] == tokens[..lo + k];
  }

  // ----- Both matchers see the same -----

  lemma PlainRun(line: string, i: nat)
    requires i < |line| && PlainAngles(line) && line[i] == '<'
    ensures OpensBack(line, i)
  {
    assert PlainAt(line, i);
    assert i > 0 ==> line[..i][i - 1] == line[i - 1];
    if i + 1 < |line| {
      assert PlainAt(line, i + 1) && line[..i + 1][i] == line[i];
    }
    assert RunOfLess(line, i + 1) == 0;
  }

  lemma PlainIsSeen(line: string, i: nat)
    requires i < |line| && PlainAngles(line)
    ensures Seen(line, i) == ForwardToken(line, i)
  {
    hide PlainAngles, ForwardToken, TokenOf, AfterOperator, OpensBack;
    TokenKinds(Mark(line[..i], line[i]));
    TokenOfLine(line, i);
    if line[i] == '<' {
      PlainRun(line, i);
      PlainOpening(line, i);
    } else {
      OnlyLessOpens(line, i);
      if line[i] == '>' {
        PlainClosing(line, i);
      }
    }
  }

  lemma OnlyLessOpens(line: string, i: nat)
    requires i < |line| && line[i] != '<'
    ensures !OpensBack(line, i)
  {
  }

  lemma {:induction false} SeenIsFile(lines: seq<string>, n: nat, k: nat)
    requires AllPlain(lines) && n < |lines| && k <= |lines[n]|
    ensures Offset(lines, n) + k <= |FileTokens(lines)|
    ensures SeenBefore(lines, n, k) == FileTokens(lines)[..Offset(lines, n) + k]
  {
    hide FileTokens, ForwardToken, Seen, PlainAngles;
    var tokens, lo := FileTokens(lines), Offset(lines, n);
    LineTokensInFile(lines, n);
    forall i | 0 <= i < |lines[n]|
      ensures LineSeen(lines[n])[i] == LineTokens(lines[n])[i]
    {
      PlainIsSeen(lines[n], i);
    }
    assert LineSeen(lines[n]) == LineTokens(lines[n]);
    PrefixOfLine(tokens, lo, lo + |lines[n]|, k);
    if n > 0 {
      SeenIsFile(lines, n - 1, |lines[n - 1]|);
    }
  }

  lemma PlainClosing(line: string, q: nat)
    requires PlainAngles(line) && q < |line| && line[q] == '>'
    ensures ClosesList(Mark(line[..q], line[q])) && ClosesBack(line, q)
  {
    assert PlainAt(line, q);
    assert q > 0 ==> line[..q][q - 1] == line[q - 1];
  }

  lemma PlainCloses(lines: seq<string>, n: nat, q: nat)
    requires AllPlain(lines) && n < |lines| && q < |lines[n]| && lines[n][q] == '>'
    ensures ClosesBack(lines[n], q)
  {
    hide PlainAngles, ClosesBack;
    PlainClosing(lines[n], q);
  }

  // ----- The results -----

  lemma SeenListIsText(lines: seq<string>, n: nat, q: nat, b: nat)
    requires AllPlain(lines) && n < |lines| && q < |lines[n]| && b <= Offset(lines, n) + q
    ensures var e := Offset(lines, n) + q;
            && e + 1 <= |FileMarks(lines)|
            && (TemplateGroup(SeenBefore(lines, n, q + 1)[b..]) <==> ListText(FileMarks(lines)[b..e + 1]))
  {
    hide *;
    var e := Offset(lines, n) + q;
    FileTokensAre(lines);
    SeenIsFile(lines, n, q + 1);
    assert FileTokens(lines)[..e + 1][b..] == FileTokens(lines)[b..e + 1];
    TokensSlice(FileMarks(lines), b, e + 1);
    TemplateIsText(FileMarks(lines)[b..e + 1]);
  }

  /** From a `>` of such lines, `Reverse` returns a position exactly when the characters from it are a list. */
  lemma ReverseIffListText(lines: seq<string>, n: nat, q: nat, n': nat, p: nat)
    requires AllPlain(lines) && n < |lines| && q < |lines[n]| && lines[n][q] == '>'
    requires n' < |lines| && p < |lines[n']|
    ensures Offset(lines, n) + q + 1 <= |FileMarks(lines)|
    ensures var b, e := Offset(lines, n') + p, Offset(lines, n) + q;
            Reverse(lines, n, q) == Place(lines[n'], n', p) <==> b < e && ListText(FileMarks(lines)[b..e + 1])
  {
    hide *;
    PlainCloses(lines, n, q);
    MarkInFile(lines, n, q);
    ReverseIffSeenList(lines, n, q, n', p);
    if Offset(lines, n') + p < Offset(lines, n) + q {
      SeenListIsText(lines, n, q, Offset(lines, n') + p);
    }
  }

  lemma ListIsLong(ms: seq<Mark>)
    ensures ListText(ms) ==> |ms| >= 2
  {
    hide OpensList, ClosesList, IsList;
  }

  /** On such lines, from a `<` that is not part of `<=`, the forward and the backward matcher undo each other. */
  lemma CloseUndoneByReverseFromAngle(lines: seq<string>, n: nat, p: nat, n': nat, q: nat)
    requires AllPlain(lines) && n < |lines| && p < |lines[n]| && lines[n][p] == '<'
    requires p + 1 < |lines[n]| ==> lines[n][p + 1] != '='
    requires n' < |lines| && 0 < q <= |lines[n']|
    ensures Close(lines, n, p) == Place(lines[n'], n', q) <==>
            lines[n'][q - 1] == '>' && Reverse(lines, n', q - 1) == Place(lines[n], n, p)
  {
    hide *;
    OpeningInFile(lines, n, p);
    CloseIffListText(lines, n, p, n', q);
    if lines[n'][q - 1] == '>' {
      ReverseIffListText(lines, n', q - 1, n, p);
      if Offset(lines, n) + p < Offset(lines, n') + q {
        ListIsLong(FileMarks(lines)[Offset(lines, n) + p..Offset(lines, n') + q]);
      }
    } else {
      ListEndsInGreater(lines, Offset(lines, n) + p, n', q);
    }
  }

  lemma ListEndsInGreater(lines: seq<string>, b: nat, n: nat, q: nat)
    requires n < |lines| && 0 < q <= |lines[n]| && lines[n][q - 1] != '>'
    ensures Offset(lines, n) + q <= |FileMarks(lines)|
    ensures b < Offset(lines, n) + q ==> !ListText(FileMarks(lines)[b..Offset(lines, n) + q])
  {
    hide *;
    var e := Offset(lines, n) + q;
    MarkInFile(lines, n, q - 1);
    if b < e && ListText(FileMarks(lines)[b..e]) {
      ListTextEnds(FileMarks(lines), b, e);
      ClosingIsGreater(FileMarks(lines)[e - 1]);
    }
  }

  lemma ClosingIsGreater(m: Mark)
    requires ClosesList(m)
    ensures m.c == '>'
  {
  }

  lemma OpeningInFile(lines: seq<string>, n: nat, p: nat)
    requires AllPlain(lines) && n < |lines| && p < |lines[n]| && lines[n][p] == '<'
    ensures OpensList(Mark(lines[n][..p], lines[n][p])) && (p + 1 < |lines[n]| ==> lines[n][p + 1] != '<')
  {
    hide PlainAngles, OpensList;
    PlainOpening(lines[n], p);
  }

  lemma PlainOpening(line: string, p: nat)
    requires PlainAngles(line) && p < |line| && line[p] == '<'
    ensures OpensList(Mark(line[..p], line[p])) && (p + 1 < |line| ==> line[p + 1] != '<')
  {
    assert PlainAt(line, p);
    if p + 1 < |line| {
      assert PlainAt(line, p + 1);
      assert line[..p + 1][p] == line[p];
    }
  }
}
