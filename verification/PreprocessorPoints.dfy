/**
  The stack at any point of any file: inside an `#else` or `#elif` arm, too, it is what the lines
  of one choice of arms leave, the innermost ones those the point is in.
 */
module PreprocessorPoints {
  import opened NestingState
  import opened PreprocessorErasure
  import ScopeTracking

  // ----- Where a point is -----

  /** What stands in front of a point on one level: a conditional that it is in the first or in a later arm of. */
  datatype Level =
    | InIf(before: Region, ifLine: Line)
    | InElse(before: Region, ifLine: Line, body: Region, arms: Arms, elseLine: Line)

  ghost predicate LevelWellFormed(l: Level) {
    && WellFormed(l.before) && l.ifLine.directive == If
    && (l.InElse? ==> WellFormed(l.body) && ArmsWellFormed(l.arms) && l.elseLine.directive == Else)
  }

  ghost predicate AllWellFormed(levels: seq<Level>) {
    forall i :: 0 <= i < |levels| ==> LevelWellFormed(levels[i])
  }

  function LevelLines(l: Level): seq<Line> {
    match l
    case InIf(before, ifLine) => Lines(before) + [ifLine]
    case InElse(before, ifLine, body, arms, elseLine) =>
      Lines(before) + ([ifLine] + (Lines(body) + (ArmLines(arms) + [elseLine])))
  }

  /** The lines on the way to the point: of a conditional, only the line that starts the arm that the point is in. */
  function LevelPath(l: Level): seq<Line> {
    Kept(l.before) + [if l.InIf? then l.ifLine else l.elseLine]
  }

  function LevelsLines(levels: seq<Level>): seq<Line> {
    if levels == [] then [] else LevelsLines(levels[..|levels| - 1]) + LevelLines(levels[|levels| - 1])
  }

  function LevelsPath(levels: seq<Level>): seq<Line> {
    if levels == [] then [] else LevelsPath(levels[..|levels| - 1]) + LevelPath(levels[|levels| - 1])
  }

  function TextTo(levels: seq<Level>, here: Region): seq<Line> {
    LevelsLines(levels) + Lines(here)
  }

  function PathTo(levels: seq<Level>, here: Region): seq<Line> {
    LevelsPath(levels) + Kept(here)
  }

  // ----- The stack at the point -----

  lemma IfOpens(line: Line, st: State)
    requires line.directive == If
    ensures var r := Step(line, st);
            && r.stack == Effect(line, st.stack)
            && r.checkpoints == st.checkpoints + [Checkpoint(st.stack, [], false)]
  {
  }

  lemma ElseReturns(line: Line, st: State)
    requires line.directive == Else && st.checkpoints != []
    ensures var r, n := Step(line, st), |st.checkpoints| - 1;
            |r.checkpoints| == n + 1 && r.stack == Effect(line, st.checkpoints[n].stackBeforeIf)
  {
  }

  lemma RunEnds(lines: seq<Line>, line: Line, st: State)
    ensures Run(lines + [line], st) == Step(line, Run(lines, st))
  {
    RunConcat(lines, [line], st);
    RunOne(line, [], Run(lines, st));
    assert [line] + [] == [line];
    assert Run([], Step(line, Run(lines, st))) == Step(line, Run(lines, st));
  }

  lemma EffectsEnd(lines: seq<Line>, line: Line, stack: Stack)
    ensures Effects(lines + [line], stack) == Effect(line, Effects(lines, stack))
  {
    EffectsConcat(lines, [line], stack);
    EffectsOne(line, [], Effects(lines, stack));
    assert [line] + [] == [line];
    assert Effects([], Effect(line, Effects(lines, stack))) == Effect(line, Effects(lines, stack));
  }

  lemma RunLevel(l: Level, st: State)
    requires LevelWellFormed(l)
    ensures var r := Run(LevelLines(l), st);
            r.stack == Effects(LevelPath(l), st.stack) && |r.checkpoints| == |st.checkpoints| + 1
  {
    hide Run, Step, Effect, Effects;
    RunRegion(l.before, st);
    var s0 := Run(Lines(l.before), st);
    IfOpens(l.ifLine, s0);
    var s1 := Step(l.ifLine, s0);
    match l
    case InIf(before, ifLine) =>
      RunEnds(Lines(before), ifLine, st);
      EffectsEnd(Kept(before), ifLine, st.stack);
    case InElse(before, ifLine, body, arms, elseLine) =>
      RunConcat(Lines(before), [ifLine] + (Lines(body) + (ArmLines(arms) + [elseLine])), st);
      RunOne(ifLine, Lines(body) + (ArmLines(arms) + [elseLine]), s0);
      RunConcat(Lines(body), ArmLines(arms) + [elseLine], s1);
      RunRegion(body, s1);
      var s2 := Run(Lines(body), s1);
      RunArms(arms, s2);
      var s3 := Run(ArmLines(arms), s2);
      RunEnds(ArmLines(arms), elseLine, s2);
      ElseReturns(elseLine, s3);
      EffectsEnd(Kept(before), elseLine, st.stack);
  }

  lemma {:induction false} RunLevels(levels: seq<Level>, st: State)
    requires AllWellFormed(levels)
    ensures var r := Run(LevelsLines(levels), st);
            r.stack == Effects(LevelsPath(levels), st.stack) && |r.checkpoints| == |st.checkpoints| + |levels|
  {
    if levels != [] {
      hide LevelWellFormed, LevelLines, LevelPath, Step, Effect;
      var init, last := levels[..|levels| - 1], levels[|levels| - 1];
      RunLevels(init, st);
      RunConcat(LevelsLines(init), LevelLines(last), st);
      RunLevel(last, Run(LevelsLines(init), st));
      EffectsConcat(LevelsPath(init), LevelPath(last), st.stack);
    }
  }

  lemma StackAtPoint(levels: seq<Level>, here: Region, st: State)
    requires AllWellFormed(levels) && WellFormed(here)
    ensures var r := Run(TextTo(levels, here), st);
            r.stack == Effects(PathTo(levels, here), st.stack) && |r.checkpoints| == |st.checkpoints| + |levels|
  {
    hide AllWellFormed, LevelsLines, LevelsPath, Run, Effects;
    RunLevels(levels, st);
    RunConcat(LevelsLines(levels), Lines(here), st);
    RunRegion(here, Run(LevelsLines(levels), st));
    EffectsConcat(LevelsPath(levels), Kept(here), st.stack);
  }

  // ----- Every file has such a point at its end -----

  /** How many conditionals are open after a line; an `#endif` too many closes nothing. */
  function DepthAfter(depth: nat, directive: Directive): nat {
    match directive
    case If => depth + 1
    case Endif => if depth == 0 then 0 else depth - 1
    case _ => depth
  }

  function Depth(lines: seq<Line>): nat {
    if lines == [] then 0 else DepthAfter(Depth(lines[..|lines| - 1]), lines[|lines| - 1].directive)
  }

  function PlainLine(line: Line): Line {
    line.(directive := NoDirective)
  }

  predicate IsStray(line: Line, depth: nat) {
    depth == 0 && (line.directive == Else || line.directive == Endif)
  }

  function Tamed(line: Line, depth: nat): Line {
    if IsStray(line, depth) then PlainLine(line) else line
  }

  /** The lines with every `#else` and `#endif` outside all conditionals taken for a plain line. */
  function WithoutStrays(lines: seq<Line>): seq<Line> {
    if lines == [] then []
    else
      var init, last := lines[..|lines| - 1], lines[|lines| - 1];
      WithoutStrays(init) + [Tamed(last, Depth(init))]
  }

  lemma StepDepth(line: Line, st: State)
    ensures |Step(line, st).checkpoints| == DepthAfter(|st.checkpoints|, line.directive)
    ensures IsStray(line, |st.checkpoints|) ==> Step(line, st) == Step(PlainLine(line), st)
  {
    SameEffect(line, st.stack);
    hide Effect;
  }

  lemma SameEffect(line: Line, stack: Stack)
    ensures Effect(line, stack) == Effect(PlainLine(line), stack)
  {
    hide PushNamespaces, ApplyTokens;
  }

  lemma StepWithoutStray(line: Line, st: State)
    ensures Step(line, st) == Step(Tamed(line, |st.checkpoints|), st)
  {
    hide Step;
    StepDepth(line, st);
  }

  lemma LastLine(lines: seq<Line>)
    requires lines != []
    ensures var init, last := lines[..|lines| - 1], lines[|lines| - 1];
            && lines == init + [last]
            && WithoutStrays(lines) == WithoutStrays(init) + [Tamed(last, Depth(init))]
            && Depth(lines) == DepthAfter(Depth(init), last.directive)
  {
    hide Tamed, DepthAfter;
  }

  lemma NoLines(stack: Stack)
    ensures WithoutStrays([]) == [] && Depth([]) == 0 && Run([], State(stack, [])) == State(stack, [])
  {
  }

  lemma {:induction false} StraysArePlain(lines: seq<Line>, stack: Stack)
    ensures var r := Run(lines, State(stack, []));
            r == Run(WithoutStrays(lines), State(stack, [])) && |r.checkpoints| == Depth(lines)
  {
    hide *;
    if lines == [] {
      NoLines(stack);
    } else {
      var init, last, st := lines[..|lines| - 1], lines[|lines| - 1], State(stack, []);
      LastLine(lines);
      StraysArePlain(init, stack);
      RunEnds(init, last, st);
      RunEnds(WithoutStrays(init), Tamed(last, Depth(init)), st);
      StepDepth(last, Run(init, st));
      StepWithoutStray(last, Run(init, st));
    }
  }

  function AppendRegion(a: Region, b: Region): Region {
    match a
    case End => b
    case Plain(line, rest) => Plain(line, AppendRegion(rest, b))
    case Conditional(ifLine, body, arms, endLine, rest) => Conditional(ifLine, body, arms, endLine, AppendRegion(rest, b))
  }

  function AppendArm(a: Arms, elseLine: Line, body: Region): Arms {
    match a
    case NoArms => Arm(elseLine, body, NoArms)
    case Arm(e, b, more) => Arm(e, b, AppendArm(more, elseLine, body))
  }

  lemma {:induction false} AppendedRegion(a: Region, b: Region)
    requires WellFormed(a) && WellFormed(b)
    ensures WellFormed(AppendRegion(a, b)) && Lines(AppendRegion(a, b)) == Lines(a) + Lines(b)
  {
    match a
    case End =>
    case Plain(line, rest) =>
      AppendedRegion(rest, b);
    case Conditional(ifLine, body, arms, endLine, rest) =>
      AppendedRegion(rest, b);
      ConcatFive([ifLine], Lines(body), ArmLines(arms), [endLine], Lines(rest), Lines(b));
  }

  lemma ConcatFive(a: seq<Line>, b: seq<Line>, c: seq<Line>, d: seq<Line>, e: seq<Line>, f: seq<Line>)
    ensures (a + (b + (c + (d + e)))) + f == a + (b + (c + (d + (e + f))))
  {
  }

  lemma {:induction false} AppendedArm(a: Arms, elseLine: Line, body: Region)
    requires ArmsWellFormed(a) && WellFormed(body) && elseLine.directive == Else
    ensures ArmsWellFormed(AppendArm(a, elseLine, body))
    ensures ArmLines(AppendArm(a, elseLine, body)) == ArmLines(a) + ([elseLine] + Lines(body))
  {
    match a
    case NoArms =>
      assert Lines(body) + [] == Lines(body);
    case Arm(e, b, more) =>
      AppendedArm(more, elseLine, body);
  }

  /** The conditional that a level and the lines behind it become when an `#endif` follows. */
  function Closed(l: Level, here: Region, endLine: Line): Region {
    match l
    case InIf(before, ifLine) => AppendRegion(before, Conditional(ifLine, here, NoArms, endLine, End))
    case InElse(before, ifLine, body, arms, elseLine) =>
      AppendRegion(before, Conditional(ifLine, body, AppendArm(arms, elseLine, here), endLine, End))
  }

  lemma LoneConditional(ifLine: Line, body: Region, arms: Arms, endLine: Line)
    ensures Lines(Conditional(ifLine, body, arms, endLine, End)) == [ifLine] + (Lines(body) + (ArmLines(arms) + [endLine]))
  {
    assert [endLine] + Lines(End) == [endLine];
  }

  /** The lines of a level in an arm, the lines behind it, and one more. */
  lemma ArmRegrouped<T>(before: seq<T>, ifLine: seq<T>, body: seq<T>, arms: seq<T>, elseLine: seq<T>, here: seq<T>, end: seq<T>)
    ensures before + (ifLine + (body + ((arms + (elseLine + here)) + end))) ==
            (before + (ifLine + (body + (arms + elseLine)))) + here + end
  {
  }

  lemma ClosedIs(l: Level, here: Region, endLine: Line)
    requires LevelWellFormed(l) && WellFormed(here) && endLine.directive == Endif
    ensures WellFormed(Closed(l, here, endLine))
    ensures Lines(Closed(l, here, endLine)) == LevelLines(l) + Lines(here) + [endLine]
  {
    hide Lines, ArmLines;
    match l
    case InIf(before, ifLine) =>
      AppendedRegion(before, Conditional(ifLine, here, NoArms, endLine, End));
      LoneConditional(ifLine, here, NoArms, endLine);
      NoArmLines();
      assert Lines(before) + ([ifLine] + (Lines(here) + ([] + [endLine]))) == LevelLines(l) + Lines(here) + [endLine];
    case InElse(before, ifLine, body, arms, elseLine) =>
      AppendedArm(arms, elseLine, here);
      AppendedRegion(before, Conditional(ifLine, body, AppendArm(arms, elseLine, here), endLine, End));
      LoneConditional(ifLine, body, AppendArm(arms, elseLine, here), endLine);
      ArmRegrouped(Lines(before), [ifLine], Lines(body), ArmLines(arms), [elseLine], Lines(here), [endLine]);
  }

  lemma NoArmLines()
    ensures ArmLines(NoArms) == []
  {
  }

  /** The level when another `#else` or `#elif` follows. */
  function NextArm(l: Level, here: Region, elseLine: Line): Level {
    match l
    case InIf(before, ifLine) => InElse(before, ifLine, here, NoArms, elseLine)
    case InElse(before, ifLine, body, arms, last) => InElse(before, ifLine, body, AppendArm(arms, last, here), elseLine)
  }

  lemma NextArmIs(l: Level, here: Region, elseLine: Line)
    requires LevelWellFormed(l) && WellFormed(here) && elseLine.directive == Else
    ensures LevelWellFormed(NextArm(l, here, elseLine))
    ensures LevelLines(NextArm(l, here, elseLine)) == LevelLines(l) + Lines(here) + [elseLine]
  {
    hide Lines, ArmLines;
    match l
    case InIf(before, ifLine) =>
      NoArmLines();
      assert Lines(before) + ([ifLine] + (Lines(here) + ([] + [elseLine]))) == LevelLines(l) + Lines(here) + [elseLine];
    case InElse(before, ifLine, body, arms, last) =>
      AppendedArm(arms, last, here);
      ArmRegrouped(Lines(before), [ifLine], Lines(body), ArmLines(arms), [last], Lines(here), [elseLine]);
  }

  lemma LevelsLast(levels: seq<Level>, l: Level)
    ensures LevelsLines(levels + [l]) == LevelsLines(levels) + LevelLines(l)
  {
    assert (levels + [l])[..|levels|] == levels;
  }

  lemma PlainFollows(levels: seq<Level>, here: Region, line: Line)
    requires WellFormed(here) && line.directive == NoDirective
    ensures WellFormed(AppendRegion(here, Plain(line, End)))
    ensures TextTo(levels, AppendRegion(here, Plain(line, End))) == TextTo(levels, here) + [line]
  {
    AppendedRegion(here, Plain(line, End));
    assert Lines(Plain(line, End)) == [line] + [];
    hide Lines, LevelsLines, AppendRegion;
    assert LevelsLines(levels) + (Lines(here) + [line]) == (LevelsLines(levels) + Lines(here)) + [line];
  }

  lemma IfFollows(levels: seq<Level>, here: Region, line: Line)
    requires AllWellFormed(levels) && WellFormed(here) && line.directive == If
    ensures AllWellFormed(levels + [InIf(here, line)])
    ensures TextTo(levels + [InIf(here, line)], End) == TextTo(levels, here) + [line]
  {
    LevelsLast(levels, InIf(here, line));
    assert Lines(End) == [];
    hide Lines, LevelsLines;
  }

  lemma ElseFollows(init: seq<Level>, l: Level, here: Region, line: Line)
    requires AllWellFormed(init + [l]) && WellFormed(here) && line.directive == Else
    ensures AllWellFormed(init + [NextArm(l, here, line)])
    ensures TextTo(init + [NextArm(l, here, line)], End) == TextTo(init + [l], here) + [line]
  {
    assert (init + [l])[|init|] == l;
    assert forall i :: 0 <= i < |init| ==> (init + [l])[i] == init[i];
    NextArmIs(l, here, line);
    LevelsLast(init, NextArm(l, here, line));
    LevelsLast(init, l);
    assert Lines(End) == [];
    hide Lines, LevelsLines, LevelLines, LevelWellFormed;
    LastRegrouped(LevelsLines(init), LevelLines(l), Lines(here), [line]);
  }

  lemma EndifFollows(init: seq<Level>, l: Level, here: Region, line: Line)
    requires AllWellFormed(init + [l]) && WellFormed(here) && line.directive == Endif
    ensures AllWellFormed(init) && WellFormed(Closed(l, here, line))
    ensures TextTo(init, Closed(l, here, line)) == TextTo(init + [l], here) + [line]
  {
    assert (init + [l])[|init|] == l;
    assert forall i :: 0 <= i < |init| ==> (init + [l])[i] == init[i];
    ClosedIs(l, here, line);
    LevelsLast(init, l);
    hide Lines, LevelsLines, LevelLines, LevelWellFormed, Closed;
    LastRegrouped(LevelsLines(init), LevelLines(l), Lines(here), [line]);
  }

  lemma LastRegrouped<T>(a: seq<T>, b: seq<T>, c: seq<T>, d: seq<T>)
    ensures a + (b + c + d) == ((a + b) + c) + d
    ensures (a + (b + c + d)) + [] == ((a + b) + c) + d
  {
  }

  /** One more line moves the point. */
  lemma MovePoint(levels: seq<Level>, here: Region, line: Line) returns (levels': seq<Level>, here': Region)
    requires AllWellFormed(levels) && WellFormed(here) && !IsStray(line, |levels|)
    ensures AllWellFormed(levels') && WellFormed(here') && TextTo(levels', here') == TextTo(levels, here) + [line]
    ensures |levels'| == DepthAfter(|levels|, line.directive)
  {
    assert WellFormed(End);
    hide AllWellFormed, WellFormed, TextTo, Closed, NextArm, AppendRegion;
    var n := |levels| - 1;
    match line.directive
    case NoDirective =>
      PlainFollows(levels, here, line);
      levels', here' := levels, AppendRegion(here, Plain(line, End));
    case If =>
      IfFollows(levels, here, line);
      levels', here' := levels + [InIf(here, line)], End;
    case Else =>
      assert levels == levels[..n] + [levels[n]];
      ElseFollows(levels[..n], levels[n], here, line);
      levels', here' := levels[..n] + [NextArm(levels[n], here, line)], End;
    case Endif =>
      assert levels == levels[..n] + [levels[n]];
      EndifFollows(levels[..n], levels[n], here, line);
      levels', here' := levels[..n], Closed(levels[n], here, line);
  }

  lemma {:induction false} PointAtEnd(lines: seq<Line>) returns (levels: seq<Level>, here: Region)
    ensures AllWellFormed(levels) && WellFormed(here) && TextTo(levels, here) == WithoutStrays(lines)
    ensures |levels| == Depth(lines)
  {
    if lines == [] {
      levels, here := [], End;
    } else {
      var init, last := lines[..|lines| - 1], lines[|lines| - 1];
      levels, here := PointAtEnd(init);
      hide AllWellFormed, WellFormed, TextTo;
      levels, here := MovePoint(levels, here, Tamed(last, Depth(init)));
    }
  }

  /** After any lines whatever, the stack is what the lines on the way to their end leave. */
  lemma StackAfterAnyLines(lines: seq<Line>, stack: Stack) returns (levels: seq<Level>, here: Region)
    ensures AllWellFormed(levels) && WellFormed(here) && TextTo(levels, here) == WithoutStrays(lines)
    ensures var r := Run(lines, State(stack, []));
            r.stack == Effects(PathTo(levels, here), stack) && |r.checkpoints| == |levels| == Depth(lines)
  {
    hide *;
    levels, here := PointAtEnd(lines);
    StraysArePlain(lines, stack);
    StackAtPoint(levels, here, State(stack, []));
  }

  /** Where these lines spell properly braced code up to a point, the stack is the chain of scopes that enclose it. */
  lemma ScopesInsideArms(levels: seq<Level>, here: Region, scopes: seq<(ScopeTracking.Code, ScopeTracking.Head)>,
                         code: ScopeTracking.Code)
    requires AllWellFormed(levels) && WellFormed(here)
    ensures ScopeTracking.Heard(PathTo(levels, here), []) == ScopeTracking.TextTo(scopes, code) ==>
            ScopeTracking.Outline(Run(TextTo(levels, here), State([], [])).stack) == ScopeTracking.Enclosing(scopes)
  {
    hide TextTo, PathTo, Run, Effects, ScopeTracking.Heard, ScopeTracking.TextTo, ScopeTracking.Enclosing;
    StackAtPoint(levels, here, State([], []));
    ScopeTracking.EffectsAreEvents(PathTo(levels, here), []);
    ScopeTracking.ScopesAtPoint(scopes, code, []);
    assert ScopeTracking.Outline([]) == [] && [] + ScopeTracking.Enclosing(scopes) == ScopeTracking.Enclosing(scopes);
  }
}
