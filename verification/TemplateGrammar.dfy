/**
  Exactly which template argument lists the forward matcher accepts.

  The reference is a grammar of argument lists over tokens.  At the level of the list every angle
  is closed by another angle or taken back as a left shift, and no semicolon occurs; inside real
  brackets, angles and semicolons are free.
 */
module TemplateGrammar {
  import opened BracketWords
  import opened ExpressionMatcher
  import opened ForwardMatching
  import opened Sequences
  import opened TemplateArguments
  import opened TextOfLines

  // ----- A file as tokens -----

  /** `tokens` are the tokens of all lines, in order. */
  ghost predicate Tokenized(lines: seq<string>, tokens: seq<Token>) {
    && |tokens| == Offset(lines, |lines|)
    && forall n, i :: 0 <= n < |lines| && 0 <= i < |lines[n]| ==> TokenAt(lines, tokens, n, i)
  }

  ghost predicate TokenAt(lines: seq<string>, tokens: seq<Token>, n: nat, i: nat)
    requires n < |lines| && i < |lines[n]|
  {
    Offset(lines, n) + i < |tokens| && tokens[Offset(lines, n) + i] == ForwardToken(lines[n], i)
  }

  function LineTokens(line: string): seq<Token> {
    seq(|line|, i requires 0 <= i < |line| => ForwardToken(line, i))
  }

  function FileTokens(lines: seq<string>): seq<Token> {
    if lines == [] then [] else FileTokens(lines[..|lines| - 1]) + LineTokens(lines[|lines| - 1])
  }

  lemma {:induction false} FileIsTokenized(lines: seq<string>)
    ensures Tokenized(lines, FileTokens(lines))
  {
    hide ForwardToken;
    if lines != [] {
      var init, last := lines[..|lines| - 1], |lines| - 1;
      FileIsTokenized(init);
      OffsetOfPrefix(lines, last);
      forall n, i | 0 <= n < |lines| && 0 <= i < |lines[n]|
        ensures TokenAt(lines, FileTokens(lines), n, i)
      {
        OffsetOfPrefix(lines, n);
        if n < last {
          assert TokenAt(init, FileTokens(init), n, i);
        }
      }
    }
  }

  lemma {:induction false} FileTokensAreTokens(lines: seq<string>)
    ensures AreTokens(FileTokens(lines))
  {
    if lines != [] {
      FileTokensAreTokens(lines[..|lines| - 1]);
    }
  }

  ghost predicate AreTokens(tokens: seq<Token>) {
    forall k :: 0 <= k < |tokens| ==> IsToken(tokens[k])
  }

  // ----- The matcher over tokens -----

  function Moves(tokens: seq<Token>, k: nat, stack: seq<char>): LineResult
    requires k <= |tokens|
    decreases |tokens| - k
  {
    if k == |tokens| then Continue(stack)
    else
      var r := ForwardMove(tokens[k], k, stack);
      if r.Continue? then Moves(tokens, k + 1, r.stack) else r
  }

  lemma MoveShifted(token: Token, i: nat, j: nat, stack: seq<char>)
    requires stack != []
    ensures match ForwardMove(token, i, stack)
            case Found(e) => e == i + 1 && ForwardMove(token, j, stack) == Found(j + 1)
            case Failed => ForwardMove(token, j, stack) == Failed
            case Continue(st) => st != [] && ForwardMove(token, j, stack) == Continue(st)
  {
  }

  lemma {:induction false} LineIsMoves(lines: seq<string>, tokens: seq<Token>, n: nat, i: nat, stack: seq<char>)
    requires Tokenized(lines, tokens) && n < |lines| && i <= |lines[n]| && stack != []
    ensures Offset(lines, n) + |lines[n]| <= |tokens|
    ensures var lo := Offset(lines, n);
            match ForwardScan(lines[n], i, stack)
            case Found(e) => i < e <= |lines[n]| && Moves(tokens, lo + i, stack) == Found(lo + e)
            case Failed => Moves(tokens, lo + i, stack) == Failed
            case Continue(st) => st != [] && Moves(tokens, lo + i, stack) == Moves(tokens, lo + |lines[n]|, st)
    decreases |lines[n]| - i
  {
    hide ForwardMove, ForwardToken;
    OffsetMonotonic(lines, n + 1, |lines|);
    if i < |lines[n]| {
      assert TokenAt(lines, tokens, n, i);
      MoveShifted(ForwardToken(lines[n], i), i, Offset(lines, n) + i, stack);
      var r := ForwardStep(lines[n], i, stack);
      if r.Continue? {
        LineIsMoves(lines, tokens, n, i + 1, r.stack);
      }
    }
  }

  lemma {:induction false} FromIsMoves(lines: seq<string>, tokens: seq<Token>, n: nat, i: nat, stack: seq<char>)
    requires Tokenized(lines, tokens) && n < |lines| && i <= |lines[n]| && stack != []
    ensures Offset(lines, n) + i <= |tokens|
    ensures var r, m := ForwardFrom(lines, n, i, stack), Moves(tokens, Offset(lines, n) + i, stack);
            if !m.Found? then r.pos == -1
            else
              && r.linenum < |lines| && r.line == lines[r.linenum]
              && 0 < r.pos <= |r.line| && Offset(lines, r.linenum) + r.pos == m.pos
    decreases |lines| - n
  {
    hide ForwardScan, Moves, Tokenized;
    LineIsMoves(lines, tokens, n, i, stack);
    match ForwardScan(lines[n], i, stack)
    case Found(e) =>
    case Failed =>
    case Continue(st) =>
      if n + 1 < |lines| {
        FromIsMoves(lines, tokens, n + 1, 0, st);
      } else {
        TokensEnd(lines, tokens, st);
      }
  }

  lemma TokensEnd(lines: seq<string>, tokens: seq<Token>, stack: seq<char>)
    requires Tokenized(lines, tokens) && lines != []
    ensures Offset(lines, |lines| - 1) + |lines[|lines| - 1]| == |tokens|
    ensures Moves(tokens, |tokens|, stack) == Continue(stack)
  {
  }

  // ----- Real brackets inside -----

  function Brackets(tokens: seq<Token>): (r: string)
    ensures |r| == |tokens|
    ensures forall k :: 0 <= k < |tokens| ==> r[k] == BracketChar(tokens[k])
  {
    seq(|tokens|, k requires 0 <= k < |tokens| => BracketChar(tokens[k]))
  }

  /** From a real bracket, the matcher over tokens is the plain machine. */
  lemma {:induction false} MovesSimulate(tokens: seq<Token>, k: nat, stack: seq<char>)
    requires AreTokens(tokens) && k <= |tokens| && stack != [] && stack[0] != '<'
    ensures var m := Scan(Erase(stack), Brackets(tokens), k);
            match Moves(tokens, k, stack)
            case Found(e) => m == Closed(e)
            case Failed => m.Mismatch?
            case Continue(_) => m.Pending?
    decreases |tokens| - k
  {
    hide ForwardMove, Erase;
    if k < |tokens| {
      ForwardMoveSimulates(tokens[k], k, stack);
      var r := ForwardMove(tokens[k], k, stack);
      if r.Continue? {
        MovesSimulate(tokens, k + 1, r.stack);
      }
    }
  }

  lemma {:induction false} DropAbove(below: seq<char>, above: seq<char>)
    requires above != [] && above[0] != '<'
    ensures var st := DropAngles(above, '<');
            st != [] && st[0] == above[0] && DropAngles(below + above, '<') == below + st
  {
    if Top(above) == '<' {
      DropAbove(below, Pop(above));
      assert Pop(below + above) == below + Pop(above);
    }
  }

  lemma PopAbove(below: seq<char>, above: seq<char>, i: nat)
    requires below != [] && above != []
    ensures PopOrFound(below + above, i) == if |above| == 1 then Continue(below) else Continue(below + Pop(above))
  {
    assert Pop(below + above) == below + Pop(above);
  }

  /** A move on the entries above leaves those below alone. */
  ghost predicate StaysAbove(token: Token, i: nat, below: seq<char>, above: seq<char>)
    requires above != []
  {
    match ForwardMove(token, i, above)
    case Continue(st) => st != [] && st[0] == above[0] && ForwardMove(token, i, below + above) == Continue(below + st)
    case Found(e) => e == i + 1 && ForwardMove(token, i, below + above) == Continue(below)
    case Failed => ForwardMove(token, i, below + above) == Failed
  }

  lemma CloserStaysAbove(c: char, i: nat, below: seq<char>, above: seq<char>)
    requires below != [] && above != [] && above[0] != '<' && Closer(c)
    ensures StaysAbove(Bracket(c), i, below, above)
  {
    DropAbove(below, above);
    var st := DropAngles(above, '<');
    hide DropAngles;
    PopAbove(below, st, i + 1);
    assert Top(below + st) == Top(st);
  }

  lemma AngleStaysAbove(i: nat, below: seq<char>, above: seq<char>)
    requires below != [] && above != [] && above[0] != '<'
    ensures StaysAbove(AngleOut, i, below, above) && StaysAbove(Token.Shift, i, below, above)
  {
    PopAbove(below, above, i + 1);
    assert Top(below + above) == Top(above) && Pop(below + above) == below + Pop(above);
  }

  /** What lies below a real bracket is not touched until that bracket is closed. */
  lemma MoveAbove(token: Token, i: nat, below: seq<char>, above: seq<char>)
    requires below != [] && above != [] && above[0] != '<' && IsToken(token)
    ensures StaysAbove(token, i, below, above)
  {
    match token
    case Bracket(c) =>
      if Opener(c) {
        ConcatAssociative(below, above, [c]);
      } else {
        hide StaysAbove;
        CloserStaysAbove(c, i, below, above);
      }
    case AngleIn => ConcatAssociative(below, above, ['<']);
    case AngleOut =>
      hide StaysAbove;
      AngleStaysAbove(i, below, above);
    case Shift =>
      hide StaysAbove;
      AngleStaysAbove(i, below, above);
    case Semicolon => DropAbove(below, above);
    case Other =>
  }

  lemma {:induction false} MovesAbove(tokens: seq<Token>, k: nat, below: seq<char>, above: seq<char>)
    requires AreTokens(tokens) && k <= |tokens| && below != [] && above != [] && above[0] != '<'
    ensures var r := Moves(tokens, k, above);
            if r.Found? then k < r.pos <= |tokens| && Moves(tokens, k, below + above) == Moves(tokens, r.pos, below)
            else !Moves(tokens, k, below + above).Found?
    decreases |tokens| - k
  {
    hide ForwardMove;
    if k < |tokens| {
      MoveAbove(tokens[k], k, below, above);
      var r := ForwardMove(tokens[k], k, above);
      if r.Continue? {
        MovesAbove(tokens, k + 1, below, r.stack);
      }
    }
  }

  /** A bracket is passed with its group, or the search fails. */
  lemma BracketIsPassed(tokens: seq<Token>, k: nat, below: seq<char>)
    requires AreTokens(tokens) && k < |tokens| && below != [] && tokens[k].Bracket? && Opener(tokens[k].c)
    ensures forall e :: k < e <= |tokens| && Group(Brackets(tokens)[k..e]) ==>
              Moves(tokens, k, below) == Moves(tokens, e, below)
    ensures (forall e :: k < e <= |tokens| ==> !Group(Brackets(tokens)[k..e])) ==> !Moves(tokens, k, below).Found?
  {
    var c := tokens[k].c;
    assert Moves(tokens, k, below) == Moves(tokens, k + 1, below + [c]);
    MovesAbove(tokens, k + 1, below, [c]);
    MovesSimulate(tokens, k + 1, [c]);
    var r := Moves(tokens, k + 1, [c]);
    forall e | k < e <= |tokens|
      ensures Group(Brackets(tokens)[k..e]) <==> r == Found(e)
    {
      ScanFindsTheGroup(Brackets(tokens), k, e);
    }
  }

  // ----- The grammar -----

  datatype Args =
    | NoMore
    | Word(rest: Args)                                        // anything that is no bracket, angle or semicolon
    | Grouped(group: seq<Token>, rest: Args)                  // a group of real brackets
    | Angled(inner: Args, shifted: bool, rest: Args)          // an angle, closed or taken back

  ghost predicate WellFormedArgs(a: Args) {
    match a
    case NoMore => true
    case Word(rest) => WellFormedArgs(rest)
    case Grouped(group, rest) => Group(Brackets(group)) && WellFormedArgs(rest)
    case Angled(inner, _, rest) => WellFormedArgs(inner) && WellFormedArgs(rest)
  }

  function Spell(a: Args): seq<Token> {
    match a
    case NoMore => []
    case Word(rest) => [Other] + Spell(rest)
    case Grouped(group, rest) => group + Spell(rest)
    case Angled(inner, shifted, rest) =>
      [AngleIn] + (Spell(inner) + ([if shifted then Token.Shift else AngleOut] + Spell(rest)))
  }

  ghost predicate ArgumentList(tokens: seq<Token>) {
    exists a :: WellFormedArgs(a) && Spell(a) == tokens
  }

  /** `<`, an argument list, `>`. */
  ghost predicate TemplateGroup(tokens: seq<Token>) {
    |tokens| >= 2 && tokens[0] == AngleIn && tokens[|tokens| - 1] == AngleOut && ArgumentList(tokens[1..|tokens| - 1])
  }

  // ----- Argument lists are passed -----

  function Angles(n: nat): (r: seq<char>)
    ensures |r| == n && forall k :: 0 <= k < n ==> r[k] == '<'
  {
    seq(n, _ => '<')
  }

  lemma AnglesPush(n: nat)
    ensures Angles(n) + ['<'] == Angles(n + 1)
    ensures n > 0 ==> Pop(Angles(n)) == Angles(n - 1)
  {
  }

  lemma {:induction false} DropAllAngles(n: nat)
    ensures DropAngles(Angles(n), '<') == []
  {
    if n > 0 {
      AnglesPush(n);
      DropAllAngles(n - 1);
    }
  }

  lemma {:induction false} ArgsArePassed(a: Args, tokens: seq<Token>, k: nat, n: nat)
    requires AreTokens(tokens) && WellFormedArgs(a) && n > 0
    requires k + |Spell(a)| <= |tokens| && tokens[k..k + |Spell(a)|] == Spell(a)
    ensures Moves(tokens, k, Angles(n)) == Moves(tokens, k + |Spell(a)|, Angles(n))
  {
    hide AreTokens, Angles, Moves, ForwardMove, Spell;
    var end := k + |Spell(a)|;
    match a
    case NoMore =>
      SpellNothing();
    case Word(rest) =>
      WordSlices(a, tokens, k, end);
      WordIsPassed(tokens, k, Angles(n));
      ArgsArePassed(rest, tokens, k + 1, n);
    case Grouped(group, rest) =>
      var m := k + |group|;
      GroupedSlices(a, tokens, k, m, end);
      GroupIsPassed(tokens, k, m, Angles(n));
      ArgsArePassed(rest, tokens, m, n);
    case Angled(inner, shifted, rest) =>
      var m := k + 1 + |Spell(inner)|;
      AngledSlices(a, tokens, k, m, end);
      ArgsArePassed(inner, tokens, k + 1, n + 1);
      AngleIsPassed(tokens, k, m, n);
      ArgsArePassed(rest, tokens, m + 1, n);
  }

  lemma SpellNothing()
    ensures Spell(NoMore) == []
  {
  }

  lemma WordSlices(a: Args, tokens: seq<Token>, k: nat, end: nat)
    requires a.Word? && end == k + |Spell(a)| <= |tokens| && tokens[k..end] == Spell(a)
    ensures k < end && tokens[k] == Other && tokens[k + 1..end] == Spell(a.rest) && end == k + 1 + |Spell(a.rest)|
  {
    SliceHead(tokens, k, end);
    ConcatSplit([tokens[k]], tokens[k + 1..end], [Other], Spell(a.rest));
  }

  lemma GroupedSlices(a: Args, tokens: seq<Token>, k: nat, m: nat, end: nat)
    requires a.Grouped? && m == k + |a.group| && end == k + |Spell(a)| <= |tokens| && tokens[k..end] == Spell(a)
    ensures m <= end && tokens[k..m] == a.group && tokens[m..end] == Spell(a.rest) && end == m + |Spell(a.rest)|
  {
    SliceSplit(tokens, k, m, end);
    ConcatSplit(tokens[k..m], tokens[m..end], a.group, Spell(a.rest));
  }

  lemma WordIsPassed(tokens: seq<Token>, k: nat, stack: seq<char>)
    requires k < |tokens| && tokens[k] == Other
    ensures Moves(tokens, k, stack) == Moves(tokens, k + 1, stack)
  {
  }

  lemma GroupIsPassed(tokens: seq<Token>, k: nat, m: nat, below: seq<char>)
    requires AreTokens(tokens) && k <= m <= |tokens| && Group(Brackets(tokens[k..m])) && below != []
    ensures Moves(tokens, k, below) == Moves(tokens, m, below)
  {
    assert Brackets(tokens[k..m]) == Brackets(tokens)[k..m];
    assert k < m && Brackets(tokens)[k] == Brackets(tokens)[k..m][0];
    BracketIsPassed(tokens, k, below);
  }

  lemma AngledSlices(a: Args, tokens: seq<Token>, k: nat, m: nat, end: nat)
    requires a.Angled? && m == k + 1 + |Spell(a.inner)| && end == k + |Spell(a)| <= |tokens| && tokens[k..end] == Spell(a)
    ensures k < m < end && tokens[k] == AngleIn && tokens[k + 1..m] == Spell(a.inner)
    ensures tokens[m] == (if a.shifted then Token.Shift else AngleOut) && tokens[m + 1..end] == Spell(a.rest)
    ensures end == m + 1 + |Spell(a.rest)|
  {
    var closing := [if a.shifted then Token.Shift else AngleOut];
    SliceHead(tokens, k, end);
    ConcatSplit([tokens[k]], tokens[k + 1..end], [AngleIn], Spell(a.inner) + (closing + Spell(a.rest)));
    SliceSplit(tokens, k + 1, m, end);
    ConcatSplit(tokens[k + 1..m], tokens[m..end], Spell(a.inner), closing + Spell(a.rest));
    SliceHead(tokens, m, end);
    ConcatSplit([tokens[m]], tokens[m + 1..end], closing, Spell(a.rest));
  }

  lemma AngleIsPushed(tokens: seq<Token>, k: nat, n: nat)
    requires k < |tokens| && tokens[k] == AngleIn
    ensures Moves(tokens, k, Angles(n)) == Moves(tokens, k + 1, Angles(n + 1))
  {
    AnglesPush(n);
  }

  lemma AngleIsPassed(tokens: seq<Token>, k: nat, m: nat, n: nat)
    requires k < m < |tokens| && n > 0 && tokens[k] == AngleIn && (tokens[m] == AngleOut || tokens[m] == Token.Shift)
    requires Moves(tokens, k + 1, Angles(n + 1)) == Moves(tokens, m, Angles(n + 1))
    ensures Moves(tokens, k, Angles(n)) == Moves(tokens, m + 1, Angles(n))
  {
    AngleIsPushed(tokens, k, n);
    AnglesPush(n + 1);
  }

  // ----- What is passed is an argument list -----

  /** A token at which an argument list ends. */
  predicate Stops(token: Token) {
    match token
    case Bracket(c) => !Opener(c)
    case AngleOut => true
    case Shift => true
    case Semicolon => true
    case _ => false
  }

  /** Where an argument list ends for good, the search fails. */
  lemma StopFails(tokens: seq<Token>, k: nat, n: nat)
    requires AreTokens(tokens) && k <= |tokens| && n > 0
    requires k < |tokens| ==> Stops(tokens[k]) && tokens[k] != AngleOut && (n > 1 ==> tokens[k] != Token.Shift)
    ensures !Moves(tokens, k, Angles(n)).Found?
  {
    DropAllAngles(n);
  }

  /**
    Recursive descent along a run: either the search does not succeed, or it gets over the longest
    argument list at `k`, which is returned.
   */
  lemma {:induction false} Parse(tokens: seq<Token>, k: nat, n: nat) returns (stuck: bool, a: Args, end: nat)
    requires AreTokens(tokens) && k <= |tokens| && n > 0
    ensures stuck ==> !Moves(tokens, k, Angles(n)).Found?
    ensures !stuck ==> k <= end <= |tokens| && (end < |tokens| ==> Stops(tokens[end]))
    ensures !stuck ==> WellFormedArgs(a) && Spell(a) == tokens[k..end]
    ensures !stuck ==> Moves(tokens, k, Angles(n)) == Moves(tokens, end, Angles(n))
    decreases |tokens| - k
  {
    stuck, a, end := false, NoMore, k;
    if k < |tokens| && !Stops(tokens[k]) {
      match tokens[k]
      case Bracket(c) =>
        stuck, a, end := ParseGroup(tokens, k, n);
      case AngleIn =>
        stuck, a, end := ParseAngle(tokens, k, n);
      case Other =>
        stuck, a, end := Parse(tokens, k + 1, n);
        a := Word(a);
        if !stuck {
          SliceHead(tokens, k, end);
        }
    }
  }

  lemma {:induction false} ParseGroup(tokens: seq<Token>, k: nat, n: nat) returns (stuck: bool, a: Args, end: nat)
    requires AreTokens(tokens) && k < |tokens| && n > 0 && tokens[k].Bracket? && Opener(tokens[k].c)
    ensures stuck ==> !Moves(tokens, k, Angles(n)).Found?
    ensures !stuck ==> k <= end <= |tokens| && (end < |tokens| ==> Stops(tokens[end]))
    ensures !stuck ==> WellFormedArgs(a) && Spell(a) == tokens[k..end]
    ensures !stuck ==> Moves(tokens, k, Angles(n)) == Moves(tokens, end, Angles(n))
    decreases |tokens| - k, 0
  {
    BracketIsPassed(tokens, k, Angles(n));
    if e :| k < e <= |tokens| && Group(Brackets(tokens)[k..e]) {
      assert Brackets(tokens[k..e]) == Brackets(tokens)[k..e];
      stuck, a, end := Parse(tokens, e, n);
      a := Grouped(tokens[k..e], a);
      if !stuck {
        SliceSplit(tokens, k, e, end);
      }
    } else {
      stuck, a, end := true, NoMore, k;
    }
  }

  lemma SlicesAngled(a: Args, tokens: seq<Token>, k: nat, m: nat, end: nat)
    requires a.Angled? && k < m < end <= |tokens| && tokens[k] == AngleIn && tokens[k + 1..m] == Spell(a.inner)
    requires tokens[m] == (if a.shifted then Token.Shift else AngleOut) && tokens[m + 1..end] == Spell(a.rest)
    requires WellFormedArgs(a.inner) && WellFormedArgs(a.rest)
    ensures tokens[k..end] == Spell(a) && WellFormedArgs(a)
  {
    SliceHead(tokens, k, end);
    SliceSplit(tokens, k + 1, m, end);
    SliceHead(tokens, m, end);
  }

  lemma {:induction false} ParseAngle(tokens: seq<Token>, k: nat, n: nat) returns (stuck: bool, a: Args, end: nat)
    requires AreTokens(tokens) && k < |tokens| && n > 0 && tokens[k] == AngleIn
    ensures stuck ==> !Moves(tokens, k, Angles(n)).Found?
    ensures !stuck ==> k <= end <= |tokens| && (end < |tokens| ==> Stops(tokens[end]))
    ensures !stuck ==> WellFormedArgs(a) && Spell(a) == tokens[k..end]
    ensures !stuck ==> Moves(tokens, k, Angles(n)) == Moves(tokens, end, Angles(n))
    decreases |tokens| - k, 0
  {
    hide *;
    AngleIsPushed(tokens, k, n);
    var inner;
    stuck, inner, end := Parse(tokens, k + 1, n + 1);
    a := inner;
    if !stuck {
      var m := end;
      if m < |tokens| && (tokens[m] == AngleOut || tokens[m] == Token.Shift) {
        AngleIsPassed(tokens, k, m, n);
        stuck, a, end := Parse(tokens, m + 1, n);
        a := Angled(inner, tokens[m] == Token.Shift, a);
        if !stuck {
          SlicesAngled(a, tokens, k, m, end);
        }
      } else {
        StopFails(tokens, m, n + 1);
        stuck := true;
      }
    }
  }

  lemma FoundIsTemplate(tokens: seq<Token>, b: nat, e: nat)
    requires AreTokens(tokens) && b < |tokens| && tokens[b] == AngleIn && Moves(tokens, b + 1, Angles(1)) == Found(e)
    ensures b < e <= |tokens| && TemplateGroup(tokens[b..e])
  {
    hide WellFormedArgs, Spell, AreTokens;
    var stuck, a, end := Parse(tokens, b + 1, 1);
    if end == |tokens| || tokens[end] != AngleOut {
      StopFails(tokens, end, 1);
    }
    assert e == end + 1;
    hide Moves, ForwardMove;
    SliceOfSlice(tokens, b, e, 1, e - b - 1);
    assert ArgumentList(tokens[b + 1..end]);
  }

  lemma AngleCloses(tokens: seq<Token>, k: nat)
    requires k < |tokens| && tokens[k] == AngleOut
    ensures Moves(tokens, k, Angles(1)) == Found(k + 1)
  {
  }

  lemma TemplateIsFound(tokens: seq<Token>, b: nat, e: nat)
    requires AreTokens(tokens) && b < e <= |tokens|
    ensures TemplateGroup(tokens[b..e]) ==> Moves(tokens, b + 1, Angles(1)) == Found(e)
  {
    if TemplateGroup(tokens[b..e]) {
      SliceOfSlice(tokens, b, e, 1, e - b - 1);
      assert tokens[e - 1] == tokens[b..e][e - b - 1];
      var a :| WellFormedArgs(a) && Spell(a) == tokens[b + 1..e - 1];
      hide WellFormedArgs, Spell, AreTokens, Moves, ForwardMove;
      ArgsArePassed(a, tokens, b + 1, 1);
      AngleCloses(tokens, e - 1);
    }
  }

  /** Behind an angle, the search ends at `e` exactly when the tokens up to `e` are one template group. */
  lemma MovesFindTheTemplate(tokens: seq<Token>, b: nat, e: nat)
    requires AreTokens(tokens) && b < |tokens| && tokens[b] == AngleIn
    ensures Moves(tokens, b + 1, ['<']) == Found(e) <==> b < e <= |tokens| && TemplateGroup(tokens[b..e])
  {
    assert Angles(1) == ['<'];
    hide *;
    if Moves(tokens, b + 1, ['<']) == Found(e) {
      FoundIsTemplate(tokens, b, e);
    }
    if b < e <= |tokens| && TemplateGroup(tokens[b..e]) {
      TemplateIsFound(tokens, b, e);
    }
  }

  lemma AngleStarts(lines: seq<string>, n: nat, p: nat)
    requires n < |lines| && p < |lines[n]| && ForwardToken(lines[n], p) == AngleIn && !LessOrShift(lines[n], p)
    ensures Close(lines, n, p) == ForwardFrom(lines, n, p + 1, ['<'])
  {
    hide EndsInOperator, Close, ForwardFrom;
    CloseStartsAngle(lines, n, p);
  }

  lemma TokenInFile(lines: seq<string>, n: nat, i: nat)
    requires n < |lines| && i < |lines[n]|
    ensures Offset(lines, n) + i < |FileTokens(lines)| && FileTokens(lines)[Offset(lines, n) + i] == ForwardToken(lines[n], i)
  {
    hide FileTokens, Offset, ForwardToken;
    FileIsTokenized(lines);
    assert TokenAt(lines, FileTokens(lines), n, i);
  }

  /**
    From a `<` that may open a template argument list, `Close` returns a position exactly when the
    tokens up to it are one template group.
   */
  lemma CloseIffTemplateGroup(lines: seq<string>, n: nat, p: nat, n': nat, q: nat)
    requires n < |lines| && p < |lines[n]| && ForwardToken(lines[n], p) == AngleIn && !LessOrShift(lines[n], p)
    requires n' < |lines| && 0 < q <= |lines[n']|
    ensures Offset(lines, n') + q <= |FileTokens(lines)|
    ensures var b, e := Offset(lines, n) + p, Offset(lines, n') + q;
            Close(lines, n, p) == Place(lines[n'], n', q) <==> b < e && TemplateGroup(FileTokens(lines)[b..e])
  {
    hide *;
    var tokens, b, e := FileTokens(lines), Offset(lines, n) + p, Offset(lines, n') + q;
    var r := Close(lines, n, p);
    AngleStarts(lines, n, p);
    FileTokensAreTokens(lines);
    FileIsTokenized(lines);
    TokenInFile(lines, n, p);
    TokenInFile(lines, n', q - 1);
    FromIsMoves(lines, tokens, n, p + 1, ['<']);
    MovesFindTheTemplate(tokens, b, e);
    if r.pos >= 0 && Offset(lines, r.linenum) + r.pos == e {
      OffsetInjective(lines, r.linenum, r.pos - 1, n', q - 1);
    }
  }

  /** And it fails exactly when no template group starts there. */
  lemma CloseFailsIffNoTemplate(lines: seq<string>, n: nat, p: nat)
    requires n < |lines| && p < |lines[n]| && ForwardToken(lines[n], p) == AngleIn && !LessOrShift(lines[n], p)
    ensures var tokens, b := FileTokens(lines), Offset(lines, n) + p;
            Close(lines, n, p).pos < 0 <==> forall e :: b < e <= |tokens| ==> !TemplateGroup(tokens[b..e])
  {
    hide *;
    var tokens, b := FileTokens(lines), Offset(lines, n) + p;
    AngleStarts(lines, n, p);
    FileTokensAreTokens(lines);
    FileIsTokenized(lines);
    TokenInFile(lines, n, p);
    FromIsMoves(lines, tokens, n, p + 1, ['<']);
    var m := Moves(tokens, b + 1, ['<']);
    forall e | b < e <= |tokens|
      ensures TemplateGroup(tokens[b..e]) <==> m == Found(e)
    {
      MovesFindTheTemplate(tokens, b, e);
    }
    if m.Found? {
      MovesFindTheTemplate(tokens, b, m.pos);
    }
  }
}
