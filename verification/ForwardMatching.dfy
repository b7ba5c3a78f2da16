/**
  What the forward matcher computes on the whole text of a file.

  Erasing the angle brackets from a matcher's stack turns every step into a step of the plain
  bracket machine, so the template heuristics never influence how ( [ { are matched.
 */
module ForwardMatching {
  import opened BracketWords
  import opened ExpressionMatcher
  import opened Sequences
  import opened TextOfLines

  // ----- Erasing angles -----

  /** The stack without its angles, except that the bottom entry stays whatever it is. */
  function Erase(stack: seq<char>): (r: seq<char>)
    requires stack != []
    ensures r != [] && r[0] == stack[0]
  {
    if |stack| == 1 then stack
    else if Top(stack) == '<' then Erase(Pop(stack))
    else Erase(Pop(stack)) + [Top(stack)]
  }

  lemma ErasePush(stack: seq<char>, c: char)
    requires stack != []
    ensures Erase(stack + [c]) == if c == '<' then Erase(stack) else Erase(stack) + [c]
  {
    assert Pop(stack + [c]) == stack;
  }

  lemma {:induction false} EraseDrop(stack: seq<char>)
    requires stack != []
    ensures var st := DropAngles(stack, '<');
            if st == [] then Erase(stack) == ['<'] && stack[0] == '<'
            else st[0] == stack[0] && Erase(st) == Erase(stack)
  {
    if Top(stack) == '<' && |stack| > 1 {
      EraseDrop(Pop(stack));
    }
  }

  /** Popping a bracket that is not the bottom entry. */
  lemma ErasePop(stack: seq<char>)
    requires |stack| > 1 && Top(stack) != '<'
    ensures |Erase(stack)| > 1 && Top(Erase(stack)) == Top(stack) && Pop(Erase(stack)) == Erase(Pop(stack))
  {
  }

  // ----- Forward: simulation -----

  /** The bracket that a token stands for, or a blank. */
  function BracketChar(token: Token): char {
    if token.Bracket? then token.c else ' '
  }

  predicate IsToken(token: Token) {
    token.Bracket? ==> Opener(token.c) || Closer(token.c)
  }

  /** What holds after one token: the plain machine, on the stack without angles, did the same. */
  ghost predicate Simulates(token: Token, i: nat, stack: seq<char>)
    requires stack != []
  {
    var m := Step(Erase(stack), BracketChar(token));
    match ForwardMove(token, i, stack)
    case Continue(st) => st != [] && st[0] == stack[0] && m == Next(Erase(st))
    case Found(e) => e == i + 1 && if stack[0] == '<' then token == AngleOut && Erase(stack) == ['<'] else m == Done
    case Failed => stack[0] == '<' || m == Bad
  }

  lemma CloserSimulates(c: char, i: nat, stack: seq<char>)
    requires stack != [] && Closer(c)
    ensures Simulates(Bracket(c), i, stack)
  {
    EraseDrop(stack);
    var st := DropAngles(stack, '<');
    hide DropAngles;
    if |st| > 1 {
      ErasePop(st);
      hide Erase;
      assert |Erase(stack)| > 1;
    }
  }

  lemma AngleOutSimulates(i: nat, stack: seq<char>)
    requires stack != []
    ensures Simulates(AngleOut, i, stack) && Simulates(Token.Shift, i, stack)
  {
  }

  lemma SemicolonSimulates(i: nat, stack: seq<char>)
    requires stack != []
    ensures Simulates(Semicolon, i, stack)
    ensures stack[0] == '<' && ForwardMove(Semicolon, i, stack).Continue? ==> |Erase(stack)| > 1
  {
    EraseDrop(stack);
    var st := DropAngles(stack, '<');
    hide DropAngles;
    if |st| > 1 {
      ErasePop(st);
    }
  }

  /**
    One token.  As long as the matcher goes on, erasing its stack commutes with the plain
    machine.  When it stops, either the plain machine stops the same way, or the bottom entry
    was a `<`.
   */
  lemma ForwardMoveSimulates(token: Token, i: nat, stack: seq<char>)
    requires stack != [] && IsToken(token)
    ensures Simulates(token, i, stack)
    ensures stack[0] == '<' && token == Semicolon && ForwardMove(token, i, stack).Continue? ==> |Erase(stack)| > 1
  {
    match token
    case Bracket(c) =>
      if Opener(c) {
        ErasePush(stack, c);
      } else {
        hide Simulates;
        CloserSimulates(c, i, stack);
      }
    case AngleIn => ErasePush(stack, '<');
    case AngleOut =>
      hide Simulates;
      AngleOutSimulates(i, stack);
    case Shift =>
      hide Simulates;
      AngleOutSimulates(i, stack);
    case Semicolon =>
      hide Simulates;
      SemicolonSimulates(i, stack);
    case Other =>
  }

  /** One character. */
  lemma {:induction false} ForwardStepSimulates(line: string, i: nat, stack: seq<char>)
    requires i < |line| && stack != []
    ensures var r := ForwardStep(line, i, stack);
            var m := Step(Erase(stack), line[i]);
            match r
            case Continue(st) => st != [] && st[0] == stack[0] && m == Next(Erase(st))
            case Found(e) =>
              e == i + 1 && if stack[0] == '<' then line[i] == '>' && Erase(stack) == ['<'] else m == Done
            case Failed => stack[0] == '<' || m == Bad
    ensures stack[0] == '<' && line[i] == ';' && ForwardStep(line, i, stack).Continue? ==> |Erase(stack)| > 1
  {
    hide ForwardMove, Erase, EndsInOperator;
    ForwardMoveSimulates(ForwardToken(line, i), i, stack);
  }

  /** One line, for a stack whose bottom entry is a real bracket. */
  lemma {:induction false} ForwardScanSimulates(line: string, i: nat, stack: seq<char>)
    requires i <= |line| && stack != [] && stack[0] != '<'
    ensures var m := Scan(Erase(stack), line, i);
            match ForwardScan(line, i, stack)
            case Found(e) => i < e <= |line| && m == Closed(e)
            case Failed => m.Mismatch?
            case Continue(st) => st != [] && st[0] == stack[0] && m == Pending(Erase(st))
    decreases |line| - i
  {
    hide ForwardStep;
    if i < |line| {
      ForwardStepSimulates(line, i, stack);
      var r := ForwardStep(line, i, stack);
      if r.Continue? {
        ForwardScanSimulates(line, i + 1, r.stack);
      }
    }
  }

  /** A search result `r` on `lines` says what the plain machine says about their text. */
  ghost predicate ForwardAgrees(lines: seq<string>, r: Place, m: Outcome) {
    match m
    case Closed(e) =>
      && r.linenum < |lines| && r.line == lines[r.linenum]
      && 0 < r.pos <= |r.line| && Offset(lines, r.linenum) + r.pos == e
    case Mismatch(at) =>
      && r.linenum == |lines| && r.pos == -1
      && OnLine(lines, r.line, at)
    case Pending(_) =>
      r.linenum == |lines| && r.pos == -1 && lines != [] && r.line == lines[|lines| - 1]
  }

  lemma {:induction false} ScanMismatchInSlice(st: seq<char>, s: string, i: nat)
    requires st != [] && i <= |s|
    ensures var r := Scan(st, s, i); r.Mismatch? ==> i <= r.at < |s|
    decreases |s| - i
  {
    if i < |s| && Step(st, s[i]).Next? {
      ScanMismatchInSlice(Step(st, s[i]).stack, s, i + 1);
    }
  }

  /** A line that is the slice `[lo..hi]` of a text, seen from the text. */
  lemma {:induction false} ForwardSliceSimulates(text: string, lo: nat, line: string, i: nat, stack: seq<char>)
    requires lo + |line| <= |text| && text[lo..lo + |line|] == line
    requires i <= |line| && stack != [] && stack[0] != '<'
    ensures var m := Scan(Erase(stack), text, lo + i);
            match ForwardScan(line, i, stack)
            case Found(e) => i < e <= |line| && m == Closed(lo + e)
            case Failed => m.Mismatch? && lo <= m.at < lo + |line|
            case Continue(st) => st != [] && st[0] == stack[0] && m == Scan(Erase(st), text, lo + |line|)
  {
    hide ForwardScan, Scan;
    ForwardScanSimulates(line, i, stack);
    ScanSlice(Erase(stack), text, lo, lo + |line|, i);
    ScanMismatchInSlice(Erase(stack), line, i);
  }

  /** All lines from `n` on: the multi-line search is one run of the plain machine over the text. */
  lemma {:induction false} ForwardFromSimulates(lines: seq<string>, text: string, n: nat, i: nat, stack: seq<char>)
    requires LaidOut(lines, text)
    requires n < |lines| && i <= |lines[n]| && stack != [] && stack[0] != '<'
    ensures Offset(lines, n) + i <= |text|
    ensures ForwardAgrees(lines, ForwardFrom(lines, n, i, stack), Scan(Erase(stack), text, Offset(lines, n) + i))
    decreases |lines| - n
  {
    hide ForwardScan, ForwardStep, Scan, Erase;
    var lo := Offset(lines, n);
    assert LineAt(lines, text, n) && Offset(lines, n + 1) == lo + |lines[n]|;
    ForwardSliceSimulates(text, lo, lines[n], i, stack);
    var m := Scan(Erase(stack), text, lo + i);
    match ForwardScan(lines[n], i, stack)
    case Found(e) =>
    case Failed =>
      assert OnLine(lines, lines[n], m.at);
    case Continue(st) =>
      if n + 1 < |lines| {
        ForwardFromSimulates(lines, text, n + 1, 0, st);
      } else {
        ScanAtEnd(Erase(st), text);
      }
  }

  lemma CloseStarts(lines: seq<string>, n: nat, p: nat)
    requires n < |lines| && p < |lines[n]| && Opener(lines[n][p])
    ensures Close(lines, n, p) == ForwardFrom(lines, n, p + 1, [lines[n][p]])
  {
    assert [] + [lines[n][p]] == [lines[n][p]];
    assert ForwardScan(lines[n], p, []) == ForwardScan(lines[n], p + 1, [lines[n][p]]);
  }

  /**
    The angle heuristics never influence real brackets: from an opener, `Close` answers what the
    plain machine answers on the whole text, including which line a failed search stopped on.
   */
  lemma CloseIsPlainMatching(lines: seq<string>, n: nat, p: nat)
    requires n < |lines| && p < |lines[n]| && Opener(lines[n][p])
    ensures Offset(lines, n) + p + 1 <= |Flatten(lines)|
    ensures ForwardAgrees(lines, Close(lines, n, p), Scan([lines[n][p]], Flatten(lines), Offset(lines, n) + p + 1))
  {
    var c := lines[n][p];
    CloseStarts(lines, n, p);
    FlatLaidOut(lines);
    ForwardFromSimulates(lines, Flatten(lines), n, p + 1, [c]);
  }

  /** From an opener, `Close` returns a position exactly when the text up to it is one bracket group. */
  lemma CloseIffGroup(lines: seq<string>, n: nat, p: nat, n': nat, q: nat)
    requires n < |lines| && p < |lines[n]| && Opener(lines[n][p])
    requires n' < |lines| && 0 < q <= |lines[n']|
    ensures Offset(lines, n') + q <= |Flatten(lines)|
    ensures var b, e := Offset(lines, n) + p, Offset(lines, n') + q;
            Close(lines, n, p) == Place(lines[n'], n', q) <==> b < e && Group(Flatten(lines)[b..e])
  {
    hide Close, Scan, Offset, Flatten, Group;
    var text, b, e, r := Flatten(lines), Offset(lines, n) + p, Offset(lines, n') + q, Close(lines, n, p);
    FlatLaidOut(lines);
    CharInText(lines, text, n, p);
    CharInText(lines, text, n', q - 1);
    CloseIsPlainMatching(lines, n, p);
    ScanFindsTheGroup(text, b, e);
    if Scan([text[b]], text, b + 1) == Closed(e) {
      OffsetInjective(lines, r.linenum, r.pos - 1, n', q - 1);
    }
  }

  /** When `Close` gives up on an opener, no bracket group starts there; it then returns the number of lines and -1. */
  lemma CloseFailsIffNoGroup(lines: seq<string>, n: nat, p: nat)
    requires n < |lines| && p < |lines[n]| && Opener(lines[n][p])
    ensures var r, b := Close(lines, n, p), Offset(lines, n) + p;
            && (r.pos < 0 <==> forall e :: b < e <= |Flatten(lines)| ==> !Group(Flatten(lines)[b..e]))
            && (r.pos < 0 ==> r.pos == -1 && r.linenum == |lines|)
  {
    hide Close, Scan, Offset, Flatten, Group;
    var text, b, r := Flatten(lines), Offset(lines, n) + p, Close(lines, n, p);
    FlatLaidOut(lines);
    CharInText(lines, text, n, p);
    CloseIsPlainMatching(lines, n, p);
    if r.pos < 0 {
      forall e | b < e <= |text|
        ensures !Group(text[b..e])
      {
        ScanFindsTheGroup(text, b, e);
      }
    } else {
      ScanFindsTheGroup(text, b, Offset(lines, r.linenum) + r.pos);
    }
  }
}
