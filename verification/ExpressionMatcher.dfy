/**
  cpplint's expression matchers: the forward and the backward multi-line matcher with their
  template-angle heuristics.

  The functions give the machines character by character; the methods are the loops that run
  them.  What the machines compute is said in `ForwardMatching`, `BackwardMatching` and
  `TemplateGrammar`.
 */
module ExpressionMatcher {
  import opened BracketWords

  // ----- The "operator" lookbehind -----

  /** `\s` */
  predicate IsSpace(c: char) {
    c == ' ' || c == '\t' || c == '\n' || c == '\r' || c as int == 11 || c as int == 12
  }

  /** `\w` */
  predicate IsWord(c: char) {
    'a' <= c <= 'z' || 'A' <= c <= 'Z' || '0' <= c <= '9' || c == '_'
  }

  function TrimRight(s: string): (r: string)
    ensures r <= s
    ensures r != [] ==> !IsSpace(r[|r| - 1])
    ensures |r| < |s| ==> IsSpace(s[|s| - 1])
  {
    if s != [] && IsSpace(s[|s| - 1]) then TrimRight(s[..|s| - 1]) else s
  }

  /** `\boperator\s*$`: the text ends in the word "operator" and blanks. */
  predicate EndsInOperator(s: string) {
    var t := TrimRight(s);
    |t| >= 8 && t[|t| - 8..] == "operator" && (|t| == 8 || !IsWord(t[|t| - 9]))
  }

  // ----- Nesting stacks -----

  function Top(stack: seq<char>): char
    requires stack != []
  {
    stack[|stack| - 1]
  }

  function Pop(stack: seq<char>): seq<char>
    requires stack != []
  {
    stack[..|stack| - 1]
  }

  /** The stack after popping every `angle` from its top. */
  function DropAngles(stack: seq<char>, angle: char): (r: seq<char>)
    ensures r <= stack
    ensures r != [] ==> Top(r) != angle
  {
    if stack != [] && Top(stack) == angle then DropAngles(Pop(stack), angle) else stack
  }

  /** What scanning (a part of) one line comes to. */
  datatype LineResult =
    | Found(pos: nat)
    | Failed
    | Continue(stack: seq<char>)

  /** Pops the stack and reports `pos` when that was the last entry. */
  function PopOrFound(stack: seq<char>, pos: nat): LineResult
    requires stack != []
  {
    if |stack| == 1 then Found(pos) else Continue(Pop(stack))
  }

  // ----- Scanning forward -----

  /** What a character means to a matcher, once its neighbours have been looked at. */
  datatype Token =
    | Bracket(c: char)    // one of ( [ { ) ] }
    | AngleIn             // an angle that may open a template argument list, in reading direction
    | AngleOut            // an angle that may close one
    | Shift               // the second `<` of a left shift
    | Semicolon
    | Other

  function ForwardToken(line: string, i: nat): Token
    requires i < |line|
  {
    var c := line[i];
    if Opener(c) || Closer(c) then Bracket(c)
    else if c == '<' then
      if i > 0 && line[i - 1] == '<' then Shift
      else if i > 0 && EndsInOperator(line[..i]) then Other
      else AngleIn
    else if c == '>' then
      if i > 0 && (line[i - 1] == '-' || EndsInOperator(line[..i - 1])) then Other else AngleOut
    else if c == ';' then Semicolon
    else Other
  }

  function ForwardMove(token: Token, i: nat, stack: seq<char>): LineResult {
    match token
    case Bracket(c) =>
      if Opener(c) then Continue(stack + [c])
      else
        var st := DropAngles(stack, '<');
        if st == [] || Top(st) != Flip(c) then Failed else PopOrFound(st, i + 1)
    case AngleIn => Continue(stack + ['<'])
    case AngleOut =>
      if stack != [] && Top(stack) == '<' then PopOrFound(stack, i + 1) else Continue(stack)
    case Shift =>
      if stack == [] || Top(stack) != '<' then Continue(stack)
      else if |stack| == 1 then Failed
      else Continue(Pop(stack))
    case Semicolon =>
      var st := DropAngles(stack, '<');
      if st == [] then Failed else Continue(st)
    case Other => Continue(stack)
  }

  function ForwardStep(line: string, i: nat, stack: seq<char>): LineResult
    requires i < |line|
  {
    ForwardMove(ForwardToken(line, i), i, stack)
  }

  function ForwardScan(line: string, i: nat, stack: seq<char>): LineResult
    requires i <= |line|
    decreases |line| - i
  {
    if i == |line| then Continue(stack)
    else
      var r := ForwardStep(line, i, stack);
      if r.Continue? then ForwardScan(line, i + 1, r.stack) else r
  }

  method FindEndOfExpressionInLine(line: string, startpos: nat, initial: seq<char>) returns (r: LineResult)
    requires startpos <= |line|
    ensures r == ForwardScan(line, startpos, initial)
  {
    var stack := initial;
    for i := startpos to |line|
      invariant ForwardScan(line, startpos, initial) == ForwardScan(line, i, stack)
    {
      var c := line[i];
      ghost var before := stack;
      if Opener(c) {
        stack := stack + [c];
      } else if c == '<' {
        if i > 0 && line[i - 1] == '<' {
          if stack != [] && Top(stack) == '<' {
            stack := Pop(stack);
            if stack == [] {
              return Failed;
            }
          }
        } else if i > 0 && EndsInOperator(line[..i]) {
        } else {
          stack := stack + ['<'];
        }
      } else if Closer(c) {
        while stack != [] && Top(stack) == '<'
          invariant DropAngles(before, '<') == DropAngles(stack, '<')
          decreases |stack|
        {
          stack := Pop(stack);
        }
        if stack == [] {
          return Failed;
        }
        if Top(stack) == Flip(c) {
          stack := Pop(stack);
          if stack == [] {
            return Found(i + 1);
          }
        } else {
          return Failed;
        }
      } else if c == '>' {
        if i > 0 && (line[i - 1] == '-' || EndsInOperator(line[..i - 1])) {
        } else if stack != [] && Top(stack) == '<' {
          stack := Pop(stack);
          if stack == [] {
            return Found(i + 1);
          }
        }
      } else if c == ';' {
        while stack != [] && Top(stack) == '<'
          invariant DropAngles(before, '<') == DropAngles(stack, '<')
          decreases |stack|
        {
          stack := Pop(stack);
        }
        if stack == [] {
          return Failed;
        }
      }
      assert ForwardStep(line, i, before) == Continue(stack);
    }
    return Continue(stack);
  }

  /** A text position, with the line it is on.  `pos` is -1 when nothing was found. */
  datatype Place = Place(line: string, linenum: nat, pos: int)

  function ForwardFrom(lines: seq<string>, n: nat, i: nat, stack: seq<char>): Place
    requires n < |lines| && i <= |lines[n]|
    decreases |lines| - n
  {
    match ForwardScan(lines[n], i, stack)
    case Found(e) => Place(lines[n], n, e)
    case Failed => Place(lines[n], |lines|, -1)
    case Continue(st) =>
      if st != [] && n + 1 < |lines| then ForwardFrom(lines, n + 1, 0, st)
      else Place(lines[n], |lines|, -1)
  }

  /** `<<` or `<=` at `pos`. */
  predicate LessOrShift(line: string, pos: nat)
    requires pos < |line|
  {
    line[pos] == '<' && pos + 1 < |line| && (line[pos + 1] == '<' || line[pos + 1] == '=')
  }

  function Close(lines: seq<string>, n: nat, pos: nat): Place
    requires n < |lines| && pos < |lines[n]|
  {
    var c := lines[n][pos];
    if !(Opener(c) || c == '<') || LessOrShift(lines[n], pos) then Place(lines[n], |lines|, -1)
    else ForwardFrom(lines, n, pos, [])
  }

  method CloseExpression(lines: seq<string>, linenum: nat, pos: nat) returns (r: Place)
    requires linenum < |lines| && pos < |lines[linenum]|
    ensures r == Close(lines, linenum, pos)
  {
    hide ForwardScan, LessOrShift;
    var n, line := linenum, lines[linenum];
    if !(Opener(line[pos]) || line[pos] == '<') || LessOrShift(line, pos) {
      return Place(line, |lines|, -1);
    }
    var scan := FindEndOfExpressionInLine(line, pos, []);
    if scan.Found? {
      return Place(line, n, scan.pos);
    }
    while scan.Continue? && scan.stack != [] && n < |lines| - 1
      invariant 0 <= n < |lines| && line == lines[n] && !scan.Found?
      invariant Close(lines, linenum, pos) ==
                if scan.Continue? && scan.stack != [] && n + 1 < |lines| then ForwardFrom(lines, n + 1, 0, scan.stack)
                else Place(line, |lines|, -1)
      decreases |lines| - n, scan.Continue?
    {
      n := n + 1;
      line := lines[n];
      scan := FindEndOfExpressionInLine(line, 0, scan.stack);
      if scan.Found? {
        return Place(line, n, scan.pos);
      }
    }
    return Place(line, |lines|, -1);
  }

  // ----- Scanning backward -----

  /** `>` at `i` is part of "->", " >= " or "operator>" and is not a bracket. */
  predicate IgnoredAngle(line: string, i: nat)
    requires i < |line|
  {
    && i > 0
    && (|| line[i - 1] == '-'
        || (IsSpace(line[i - 1]) && i + 2 < |line| && line[i + 1] == '=' && IsSpace(line[i + 2]))
        || EndsInOperator(line[..i]))
  }

  /** The step also consumes the character before `i`. */
  predicate SkipsTwo(line: string, i: nat)
    requires i < |line|
  {
    (line[i] == '>' && IgnoredAngle(line, i)) || (line[i] == '<' && i > 0 && line[i - 1] == '<')
  }

  function BackwardToken(line: string, i: nat): Token
    requires i < |line|
  {
    var c := line[i];
    if SkipsTwo(line, i) then Other
    else if Opener(c) || Closer(c) then Bracket(c)
    else if c == '>' then AngleIn
    else if c == '<' then AngleOut
    else if c == ';' then Semicolon
    else Other
  }

  function BackwardMove(token: Token, i: nat, stack: seq<char>): LineResult {
    match token
    case Bracket(c) =>
      if Closer(c) then Continue(stack + [c])
      else
        var st := DropAngles(stack, '>');
        if st == [] || Top(st) != Flip(c) then Failed else PopOrFound(st, i)
    case AngleIn => Continue(stack + ['>'])
    case AngleOut =>
      if stack != [] && Top(stack) == '>' then PopOrFound(stack, i) else Continue(stack)
    case Semicolon =>
      var st := DropAngles(stack, '>');
      if st == [] then Failed else Continue(st)
    case _ => Continue(stack)
  }

  function BackwardStep(line: string, i: nat, stack: seq<char>): LineResult
    requires i < |line|
  {
    BackwardMove(BackwardToken(line, i), i, stack)
  }

  /** Scans `line[..k]` from its end. */
  function BackwardScan(line: string, k: nat, stack: seq<char>): LineResult
    requires k <= |line|
  {
    if k == 0 then Continue(stack)
    else
      var r := BackwardStep(line, k - 1, stack);
      if !r.Continue? then r
      else BackwardScan(line, if SkipsTwo(line, k - 1) then k - 2 else k - 1, r.stack)
  }

  method FindStartOfExpressionInLine(line: string, endpos: int, initial: seq<char>) returns (r: LineResult)
    requires -1 <= endpos < |line|
    ensures r == BackwardScan(line, endpos + 1, initial)
  {
    var stack, i := initial, endpos;
    while i >= 0
      invariant -1 <= i < |line|
      invariant BackwardScan(line, endpos + 1, initial) == BackwardScan(line, i + 1, stack)
      decreases i
    {
      var c := line[i];
      ghost var before, start := stack, i;
      if Closer(c) {
        stack := stack + [c];
      } else if c == '>' {
        if IgnoredAngle(line, i) {
          i := i - 1;
        } else {
          stack := stack + ['>'];
        }
      } else if c == '<' {
        if i > 0 && line[i - 1] == '<' {
          i := i - 1;
        } else if stack != [] && Top(stack) == '>' {
          stack := Pop(stack);
          if stack == [] {
            return Found(i);
          }
        }
      } else if Opener(c) {
        while stack != [] && Top(stack) == '>'
          invariant DropAngles(before, '>') == DropAngles(stack, '>')
          decreases |stack|
        {
          stack := Pop(stack);
        }
        if stack == [] {
          return Failed;
        }
        if Top(stack) == Flip(c) {
          stack := Pop(stack);
          if stack == [] {
            return Found(i);
          }
        } else {
          return Failed;
        }
      } else if c == ';' {
        while stack != [] && Top(stack) == '>'
          invariant DropAngles(before, '>') == DropAngles(stack, '>')
          decreases |stack|
        {
          stack := Pop(stack);
        }
        if stack == [] {
          return Failed;
        }
      }
      assert BackwardStep(line, start, before) == Continue(stack);
      assert i == if SkipsTwo(line, start) then start - 1 else start;
      i := i - 1;
    }
    return Continue(stack);
  }

  function BackwardFrom(lines: seq<string>, n: nat, k: nat, stack: seq<char>): Place
    requires n < |lines| && k <= |lines[n]|
  {
    match BackwardScan(lines[n], k, stack)
    case Found(b) => Place(lines[n], n, b)
    case Failed => Place(lines[n], 0, -1)
    case Continue(st) =>
      if st != [] && n > 0 then BackwardFrom(lines, n - 1, |lines[n - 1]|, st)
      else Place(lines[n], 0, -1)
  }

  function Reverse(lines: seq<string>, n: nat, pos: nat): Place
    requires n < |lines| && pos < |lines[n]|
  {
    var c := lines[n][pos];
    if !(Closer(c) || c == '>') then Place(lines[n], 0, -1)
    else BackwardFrom(lines, n, pos + 1, [])
  }

  method ReverseCloseExpression(lines: seq<string>, linenum: nat, pos: nat) returns (r: Place)
    requires linenum < |lines| && pos < |lines[linenum]|
    ensures r == Reverse(lines, linenum, pos)
  {
    hide BackwardScan;
    var n, line := linenum, lines[linenum];
    if !(Closer(line[pos]) || line[pos] == '>') {
      return Place(line, 0, -1);
    }
    var scan := FindStartOfExpressionInLine(line, pos, []);
    if scan.Found? {
      return Place(line, n, scan.pos);
    }
    while scan.Continue? && scan.stack != [] && n > 0
      invariant 0 <= n < |lines| && line == lines[n] && !scan.Found?
      invariant Reverse(lines, linenum, pos) ==
                if scan.Continue? && scan.stack != [] && n > 0 then BackwardFrom(lines, n - 1, |lines[n - 1]|, scan.stack)
                else Place(line, 0, -1)
      decreases n, scan.Continue?
    {
      n := n - 1;
      line := lines[n];
      scan := FindStartOfExpressionInLine(line, |line| - 1, scan.stack);
      if scan.Found? {
        return Place(line, n, scan.pos);
      }
    }
    return Place(line, 0, -1);
  }
}
