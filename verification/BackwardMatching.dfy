/** What the backward matcher computes: it is the plain bracket machine on the mirrored text. */
module BackwardMatching {
  import opened BracketWords
  import opened ExpressionMatcher
  import opened Sequences
  import opened TextOfLines
  import opened ForwardMatching

  lemma OperatorIsNoBracket(s: string)
    requires s != [] && EndsInOperator(s)
    ensures !Opener(s[|s| - 1]) && !Closer(s[|s| - 1])
  {
    var t := TrimRight(s);
    hide TrimRight;
    if |t| == |s| {
      assert t[|t| - 8..][7] == "operator"[7] == 'r';
    }
  }

  lemma SkippedIsNoBracket(line: string, i: nat)
    requires i < |line| && SkipsTwo(line, i)
    ensures i > 0 && !Opener(line[i - 1]) && !Closer(line[i - 1])
  {
    hide EndsInOperator;
    if EndsInOperator(line[..i]) {
      OperatorIsNoBracket(line[..i]);
    }
  }

  // ----- Turning the matcher around -----

  /** A stack entry of the backward matcher as one of the forward matcher. */
  function Turn(c: char): char {
    if c == '>' then '<' else Flip(c)
  }

  function TurnStack(stack: seq<char>): (r: seq<char>)
    ensures |r| == |stack| && forall k :: 0 <= k < |stack| ==> r[k] == Turn(stack[k])
  {
    seq(|stack|, k requires 0 <= k < |stack| => Turn(stack[k]))
  }

  function TurnToken(token: Token): Token {
    if token.Bracket? then Bracket(Flip(token.c)) else token
  }

  /** What the backward matcher stacks. */
  ghost predicate BackStack(stack: seq<char>) {
    forall k :: 0 <= k < |stack| ==> Closer(stack[k]) || stack[k] == '>'
  }

  lemma {:induction false} DropTurned(stack: seq<char>)
    requires BackStack(stack)
    ensures var st := DropAngles(stack, '>');
            BackStack(st) && DropAngles(TurnStack(stack), '<') == TurnStack(st) && (st != [] ==> st[0] == stack[0])
  {
    if stack != [] && Top(stack) == '>' {
      DropTurned(Pop(stack));
      assert Pop(TurnStack(stack)) == TurnStack(Pop(stack));
    }
  }

  lemma PopTurned(stack: seq<char>)
    requires BackStack(stack) && stack != []
    ensures BackStack(Pop(stack)) && TurnStack(Pop(stack)) == Pop(TurnStack(stack)) && Top(TurnStack(stack)) == Turn(Top(stack))
  {
  }

  lemma PushTurned(stack: seq<char>, c: char)
    requires BackStack(stack) && (Closer(c) || c == '>')
    ensures BackStack(stack + [c]) && TurnStack(stack + [c]) == TurnStack(stack) + [Turn(c)]
  {
  }

  /** A backward move is the forward move on the turned token and stack. */
  ghost predicate Turned(token: Token, i: nat, j: nat, stack: seq<char>) {
    match BackwardMove(token, i, stack)
    case Continue(st) =>
      && BackStack(st) && (st != [] && stack != [] ==> st[0] == stack[0])
      && ForwardMove(TurnToken(token), j, TurnStack(stack)) == Continue(TurnStack(st))
    case Found(b) => b == i && ForwardMove(TurnToken(token), j, TurnStack(stack)) == Found(j + 1)
    case Failed => ForwardMove(TurnToken(token), j, TurnStack(stack)) == Failed
  }

  lemma OpenerTurned(c: char, i: nat, j: nat, stack: seq<char>)
    requires BackStack(stack) && Opener(c)
    ensures Turned(Bracket(c), i, j, stack)
  {
    DropTurned(stack);
    var st := DropAngles(stack, '>');
    hide DropAngles, TurnStack, BackStack;
    if st != [] {
      PopTurned(st);
      TopIsEntry(st);
    }
  }

  lemma TopIsEntry(stack: seq<char>)
    requires BackStack(stack) && stack != []
    ensures Closer(Top(stack)) || Top(stack) == '>'
  {
  }

  lemma MoveTurned(token: Token, i: nat, j: nat, stack: seq<char>)
    requires BackStack(stack) && IsToken(token) && token != Token.Shift
    ensures Turned(token, i, j, stack)
  {
    match token
    case Bracket(c) =>
      if Closer(c) {
        PushTurned(stack, c);
      } else {
        hide Turned;
        OpenerTurned(c, i, j, stack);
      }
    case AngleIn => PushTurned(stack, '>');
    case AngleOut =>
      if stack != [] {
        PopTurned(stack);
        TopIsEntry(stack);
      }
    case Semicolon => DropTurned(stack);
    case Other =>
  }

  // ----- Simulation -----

  /** One step of the backward matcher is one plain step on the turned-around character. */
  lemma {:induction false} BackwardStepSimulates(line: string, i: nat, stack: seq<char>)
    requires i < |line| && stack != [] && BackStack(stack) && Closer(stack[0])
    ensures var m := Step(Erase(TurnStack(stack)), Flip(line[i]));
            match BackwardStep(line, i, stack)
            case Continue(st) => st != [] && BackStack(st) && st[0] == stack[0] && m == Next(Erase(TurnStack(st)))
            case Found(b) => b == i && m == Done
            case Failed => m == Bad
  {
    hide BackwardMove, ForwardMove, Erase, SkipsTwo;
    var token := BackwardToken(line, i);
    MoveTurned(token, i, i, stack);
    ForwardMoveSimulates(TurnToken(token), i, TurnStack(stack));
    SkippedIsAngle(line, i);
  }

  lemma SkippedIsAngle(line: string, i: nat)
    requires i < |line|
    ensures SkipsTwo(line, i) ==> line[i] == '>' || line[i] == '<'
  {
  }

  /** One line from its end, for a stack whose bottom entry is a real bracket. */
  lemma {:induction false} BackwardScanSimulates(line: string, k: nat, stack: seq<char>)
    requires k <= |line| && stack != [] && BackStack(stack) && Closer(stack[0])
    ensures var m := Scan(Erase(TurnStack(stack)), Mirror(line), |line| - k);
            match BackwardScan(line, k, stack)
            case Found(b) => b < k && m == Closed(|line| - b)
            case Failed => m.Mismatch?
            case Continue(st) => st != [] && BackStack(st) && st[0] == stack[0] && m == Pending(Erase(TurnStack(st)))
  {
    hide BackwardStep, SkipsTwo, Erase, TurnStack, BackStack;
    if k > 0 {
      BackwardStepSimulates(line, k - 1, stack);
      assert Mirror(line)[|line| - k] == Flip(line[k - 1]);
      var r := BackwardStep(line, k - 1, stack);
      if r.Continue? {
        if SkipsTwo(line, k - 1) {
          SkippedIsNoBracket(line, k - 1);
          assert Mirror(line)[|line| - k + 1] == Flip(line[k - 2]);
          BackwardScanSimulates(line, k - 2, r.stack);
        } else {
          BackwardScanSimulates(line, k - 1, r.stack);
        }
      }
    }
  }

  ghost predicate BackwardAgrees(lines: seq<string>, length: nat, r: Place, m: Outcome) {
    match m
    case Closed(e) =>
      && r.linenum < |lines| && r.line == lines[r.linenum]
      && 0 <= r.pos < |r.line| && Offset(lines, r.linenum) + r.pos == length - e
    case Mismatch(at) =>
      && r.linenum == 0 && r.pos == -1
      && OnLine(lines, r.line, length - 1 - at)
    case Pending(_) =>
      r.linenum == 0 && r.pos == -1 && lines != [] && r.line == lines[0]
  }

  /** A line that is a slice of a text, seen from the mirrored text. */
  lemma {:induction false} BackwardSliceSimulates(text: string, lo: nat, line: string, k: nat, stack: seq<char>)
    requires lo + |line| <= |text| && text[lo..lo + |line|] == line
    requires k <= |line| && stack != [] && BackStack(stack) && Closer(stack[0])
    ensures var m := Scan(Erase(TurnStack(stack)), Mirror(text), |text| - (lo + k));
            match BackwardScan(line, k, stack)
            case Found(b) => b < k && m == Closed(|text| - (lo + b))
            case Failed => m.Mismatch? && lo <= |text| - 1 - m.at < lo + |line|
            case Continue(st) =>
              st != [] && BackStack(st) && st[0] == stack[0] && m == Scan(Erase(TurnStack(st)), Mirror(text), |text| - lo)
  {
    hide BackwardScan, Scan;
    var st, from, hi := Erase(TurnStack(stack)), |line| - k, lo + |line|;
    MirrorSlice(text, lo, hi);
    BackwardScanSimulates(line, k, stack);
    ScanSlice(st, Mirror(text), |text| - hi, |text| - lo, from);
    ScanMismatchInSlice(st, Mirror(line), from);
    assert |text| - hi + from == |text| - (lo + k);
  }

  /** All lines up to `n`: the multi-line search is one run of the plain machine over the mirrored text. */
  lemma {:induction false} BackwardFromSimulates(lines: seq<string>, text: string, n: nat, k: nat, stack: seq<char>)
    requires LaidOut(lines, text)
    requires n < |lines| && k <= |lines[n]| && stack != [] && BackStack(stack) && Closer(stack[0])
    ensures Offset(lines, n) + k <= |text|
    ensures BackwardAgrees(lines, |text|, BackwardFrom(lines, n, k, stack),
                           Scan(Erase(TurnStack(stack)), Mirror(text), |text| - (Offset(lines, n) + k)))
  {
    hide BackwardScan, BackwardStep, Scan, Erase, TurnStack, BackStack, Mirror;
    var lo := Offset(lines, n);
    assert LineAt(lines, text, n) && Offset(lines, n + 1) == lo + |lines[n]|;
    BackwardSliceSimulates(text, lo, lines[n], k, stack);
    var m := Scan(Erase(TurnStack(stack)), Mirror(text), |text| - (lo + k));
    match BackwardScan(lines[n], k, stack)
    case Found(b) =>
    case Failed =>
      assert OnLine(lines, lines[n], |text| - 1 - m.at);
    case Continue(st) =>
      if n > 0 {
        assert Offset(lines, n - 1) + |lines[n - 1]| == lo;
        BackwardFromSimulates(lines, text, n - 1, |lines[n - 1]|, st);
      } else {
        ScanAtEnd(Erase(TurnStack(st)), Mirror(text));
      }
  }

  lemma ReverseStarts(lines: seq<string>, n: nat, q: nat)
    requires n < |lines| && q < |lines[n]|
    requires Closer(lines[n][q]) || (lines[n][q] == '>' && !IgnoredAngle(lines[n], q))
    ensures Reverse(lines, n, q) == BackwardFrom(lines, n, q, [lines[n][q]])
  {
    assert [] + [lines[n][q]] == [lines[n][q]];
    assert BackwardScan(lines[n], q + 1, []) == BackwardScan(lines[n], q, [lines[n][q]]);
  }

  /** From a closing bracket, `Reverse` answers what the plain machine answers on the mirrored text. */
  lemma ReverseIsPlainMatching(lines: seq<string>, n: nat, q: nat)
    requires n < |lines| && q < |lines[n]| && Closer(lines[n][q])
    ensures Offset(lines, n) + q <= |Flatten(lines)|
    ensures BackwardAgrees(lines, |Flatten(lines)|, Reverse(lines, n, q),
                           Scan([Flip(lines[n][q])], Mirror(Flatten(lines)), |Flatten(lines)| - (Offset(lines, n) + q)))
  {
    var c := lines[n][q];
    assert TurnStack([c]) == [Flip(c)] && Erase(TurnStack([c])) == [Flip(c)] && BackStack([c]);
    hide *;
    ReverseStarts(lines, n, q);
    FlatLaidOut(lines);
    BackwardFromSimulates(lines, Flatten(lines), n, q, [c]);
  }

  /** From a closing bracket, `Reverse` returns a position exactly when the text from it is one bracket group. */
  lemma ReverseIffGroup(lines: seq<string>, n: nat, p: nat, n': nat, q: nat)
    requires n < |lines| && p < |lines[n]|
    requires n' < |lines| && q < |lines[n']| && Closer(lines[n'][q])
    ensures Offset(lines, n') + q + 1 <= |Flatten(lines)|
    ensures var b, e := Offset(lines, n) + p, Offset(lines, n') + q + 1;
            Reverse(lines, n', q) == Place(lines[n], n, p) <==> b < e && Group(Flatten(lines)[b..e])
  {
    hide Reverse, Scan, Offset, Flatten, Group;
    var text, b, e, r := Flatten(lines), Offset(lines, n) + p, Offset(lines, n') + q + 1, Reverse(lines, n', q);
    FlatLaidOut(lines);
    CharInText(lines, text, n, p);
    CharInText(lines, text, n', q);
    ReverseIsPlainMatching(lines, n', q);
    ScanFindsTheGroupBackwards(text, b, e);
    if Scan([Flip(text[e - 1])], Mirror(text), |text| - e + 1) == Closed(|text| - b) {
      OffsetInjective(lines, r.linenum, r.pos, n, p);
    }
  }

  /** A bracket group ends at `e`. */
  ghost predicate EndsGroup(s: string, e: nat)
    requires e <= |s|
  {
    exists b :: 0 <= b < e && Group(s[b..e])
  }

  /** When `Reverse` gives up on a closing bracket, no bracket group ends there; it then returns line 0 and -1. */
  lemma ReverseFailsIffNoGroup(lines: seq<string>, n: nat, q: nat)
    requires n < |lines| && q < |lines[n]| && Closer(lines[n][q])
    ensures Offset(lines, n) + q + 1 <= |Flatten(lines)|
    ensures var r, e := Reverse(lines, n, q), Offset(lines, n) + q + 1;
            && (r.pos < 0 <==> !EndsGroup(Flatten(lines), e))
            && (r.pos < 0 ==> r.pos == -1 && r.linenum == 0)
  {
    hide Reverse, Scan, Offset, Flatten, Group;
    var text, e, r := Flatten(lines), Offset(lines, n) + q + 1, Reverse(lines, n, q);
    FlatLaidOut(lines);
    CharInText(lines, text, n, q);
    ReverseIsPlainMatching(lines, n, q);
    if EndsGroup(text, e) {
      var b :| 0 <= b < e && Group(text[b..e]);
      ScanFindsTheGroupBackwards(text, b, e);
    }
    if r.pos >= 0 {
      var b := Offset(lines, r.linenum) + r.pos;
      CharInText(lines, text, r.linenum, r.pos);
      ScanFindsTheGroupBackwards(text, b, e);
      assert 0 <= b < e && Group(text[b..e]);
    }
  }
}
