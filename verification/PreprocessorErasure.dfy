/** The checkpoints make cpplint behave as if every #else and #elif arm had been erased. */
module PreprocessorErasure {
  import opened NestingState
  import opened Sequences

  // ----- Well-nested conditionals -----

  datatype Region =
    | End
    | Plain(line: Line, rest: Region)
    | Conditional(ifLine: Line, body: Region, arms: Arms, endLine: Line, rest: Region)

  datatype Arms =
    | NoArms
    | Arm(elseLine: Line, body: Region, more: Arms)

  ghost predicate WellFormed(r: Region) {
    match r
    case End => true
    case Plain(line, rest) => line.directive == NoDirective && WellFormed(rest)
    case Conditional(ifLine, body, arms, endLine, rest) =>
      ifLine.directive == If && WellFormed(body) && ArmsWellFormed(arms) && endLine.directive == Endif && WellFormed(rest)
  }

  ghost predicate ArmsWellFormed(a: Arms) {
    match a
    case NoArms => true
    case Arm(elseLine, body, more) => elseLine.directive == Else && WellFormed(body) && ArmsWellFormed(more)
  }

  function Lines(r: Region): seq<Line> {
    match r
    case End => []
    case Plain(line, rest) => [line] + Lines(rest)
    case Conditional(ifLine, body, arms, endLine, rest) =>
      [ifLine] + (Lines(body) + (ArmLines(arms) + ([endLine] + Lines(rest))))
  }

  function ArmLines(a: Arms): seq<Line> {
    match a
    case NoArms => []
    case Arm(elseLine, body, more) => [elseLine] + (Lines(body) + ArmLines(more))
  }

  ghost predicate WellNested(lines: seq<Line>) {
    exists r :: WellFormed(r) && Lines(r) == lines
  }

  /** The lines outside all #else and #elif arms; `inElse` says which enclosing conditionals are in one. */
  function OutsideElse(lines: seq<Line>, inElse: seq<bool>): seq<Line> {
    if lines == [] then []
    else
      var n := |inElse| - 1;
      var inside :=
        match lines[0].directive
        case NoDirective => inElse
        case If => inElse + [false]
        case Else => if n < 0 then inElse else inElse[n := true]
        case Endif => if n < 0 then inElse else inElse[..n];
      (if true in inside then [] else [lines[0]]) + OutsideElse(lines[1..], inside)
  }

  /** The effects of lines with every directive ignored. */
  function Effects(lines: seq<Line>, stack: Stack): Stack {
    if lines == [] then stack else Effects(lines[1..], Effect(lines[0], stack))
  }

  // ----- Concatenation -----

  lemma {:induction false} RunConcat(a: seq<Line>, b: seq<Line>, st: State)
    ensures Run(a + b, st) == Run(b, Run(a, st))
  {
    hide Step;
    if a == [] {
      assert a + b == b;
    } else {
      RunConcat(a[1..], b, Step(a[0], st));
      assert (a + b)[1..] == a[1..] + b;
    }
  }

  lemma RunOne(line: Line, rest: seq<Line>, st: State)
    ensures Run([line] + rest, st) == Run(rest, Step(line, st))
  {
    hide Step;
    assert ([line] + rest)[1..] == rest;
  }

  lemma {:induction false} EffectsConcat(a: seq<Line>, b: seq<Line>, stack: Stack)
    ensures Effects(a + b, stack) == Effects(b, Effects(a, stack))
  {
    hide Effect;
    if a == [] {
      assert a + b == b;
    } else {
      EffectsConcat(a[1..], b, Effect(a[0], stack));
      assert (a + b)[1..] == a[1..] + b;
    }
  }

  lemma EffectsOne(line: Line, rest: seq<Line>, stack: Stack)
    ensures Effects([line] + rest, stack) == Effects(rest, Effect(line, stack))
  {
    hide Effect;
    assert ([line] + rest)[1..] == rest;
  }

  // ----- What is kept of a region -----

  function Kept(r: Region): seq<Line> {
    match r
    case End => []
    case Plain(line, rest) => [line] + Kept(rest)
    case Conditional(ifLine, body, _, endLine, rest) => [ifLine] + (Kept(body) + ([endLine] + Kept(rest)))
  }

  /** Running a region: its kept lines take effect, and the checkpoints are as before. */
  lemma {:induction false} RunRegion(r: Region, st: State)
    requires WellFormed(r)
    ensures Run(Lines(r), st) == st.(stack := Effects(Kept(r), st.stack))
  {
    hide Effect;
    match r
    case End =>
    case Plain(line, rest) =>
      RunOne(line, Lines(rest), st);
      RunRegion(rest, Step(line, st));
      EffectsOne(line, Kept(rest), st.stack);
    case Conditional(ifLine, body, arms, endLine, rest) =>
      var tail := [endLine] + Lines(rest);
      var s1 := Step(ifLine, st);
      RunOne(ifLine, Lines(body) + (ArmLines(arms) + tail), st);
      RunConcat(Lines(body), ArmLines(arms) + tail, s1);
      RunRegion(body, s1);
      var s2 := s1.(stack := Effects(Kept(body), s1.stack));
      RunConcat(ArmLines(arms), tail, s2);
      RunArms(arms, s2);
      var s3 := Run(ArmLines(arms), s2);
      RunOne(endLine, Lines(rest), s3);
      assert s3.checkpoints[..|st.checkpoints|] == st.checkpoints;
      var s4 := Step(endLine, s3);
      assert s4 == State(Effect(endLine, s2.stack), st.checkpoints);
      RunRegion(rest, s4);
      EffectsOne(ifLine, Kept(body) + ([endLine] + Kept(rest)), st.stack);
      EffectsConcat(Kept(body), [endLine] + Kept(rest), s1.stack);
      EffectsOne(endLine, Kept(rest), s2.stack);
  }

  /** Running the arms of the innermost conditional only affects what its #endif throws away. */
  lemma {:induction false} RunArms(a: Arms, st: State)
    requires ArmsWellFormed(a) && st.checkpoints != []
    ensures var n := |st.checkpoints| - 1;
            var r := Run(ArmLines(a), st);
            && |r.checkpoints| == n + 1 && r.checkpoints[..n] == st.checkpoints[..n]
            && r.checkpoints[n].stackBeforeIf == st.checkpoints[n].stackBeforeIf
            && (a.NoArms? ==> r == st)
            && (a.Arm? ==> r.checkpoints[n].seenElse)
            && (a.Arm? && !st.checkpoints[n].seenElse ==> r.checkpoints[n].stackBeforeElse == st.stack)
            && (st.checkpoints[n].seenElse ==> r.checkpoints[n] == st.checkpoints[n])
  {
    hide Effect;
    match a
    case NoArms =>
    case Arm(elseLine, body, more) =>
      var s1 := Step(elseLine, st);
      RunOne(elseLine, Lines(body) + ArmLines(more), st);
      RunConcat(Lines(body), ArmLines(more), s1);
      RunRegion(body, s1);
      var s2 := s1.(stack := Effects(Kept(body), s1.stack));
      RunArms(more, s2);
  }

  // ----- The kept lines are those outside the arms -----

  lemma InnerFlag(inElse: seq<bool>, b: bool)
    ensures true in inElse + [b] <==> b || true in inElse
    ensures (inElse + [b])[..|inElse|] == inElse
    ensures (inElse + [b])[|inElse| := true] == inElse + [true]
  {
    assert b in inElse + [b];
  }

  lemma OutsideIf(line: Line, rest: seq<Line>, inElse: seq<bool>)
    requires line.directive == If
    ensures OutsideElse([line] + rest, inElse) ==
            (if true in inElse then [] else [line]) + OutsideElse(rest, inElse + [false])
  {
    assert ([line] + rest)[1..] == rest;
    InnerFlag(inElse, false);
  }

  lemma OutsideEndif(line: Line, rest: seq<Line>, inElse: seq<bool>, b: bool)
    requires line.directive == Endif
    ensures OutsideElse([line] + rest, inElse + [b]) == (if true in inElse then [] else [line]) + OutsideElse(rest, inElse)
  {
    assert ([line] + rest)[1..] == rest;
    InnerFlag(inElse, b);
  }

  lemma OutsideElseLine(line: Line, rest: seq<Line>, inElse: seq<bool>, b: bool)
    requires line.directive == Else
    ensures OutsideElse([line] + rest, inElse + [b]) == OutsideElse(rest, inElse + [true])
  {
    assert ([line] + rest)[1..] == rest;
    InnerFlag(inElse, b);
    InnerFlag(inElse, true);
  }

  lemma OutsidePlain(line: Line, rest: seq<Line>, inElse: seq<bool>)
    requires line.directive == NoDirective
    ensures OutsideElse([line] + rest, inElse) == (if true in inElse then [] else [line]) + OutsideElse(rest, inElse)
  {
    assert ([line] + rest)[1..] == rest;
  }

  lemma {:induction false} KeptRegion(r: Region, rest: seq<Line>, inElse: seq<bool>)
    requires WellFormed(r)
    ensures OutsideElse(Lines(r) + rest, inElse) == (if true in inElse then [] else Kept(r)) + OutsideElse(rest, inElse)
    decreases r, 1
  {
    hide OutsideElse;
    match r
    case End =>
      assert Lines(r) + rest == rest;
    case Plain(line, tail) =>
      ConcatAssociative([line], Lines(tail), rest);
      OutsidePlain(line, Lines(tail) + rest, inElse);
      KeptRegion(tail, rest, inElse);
      ConcatAssociative([line], Kept(tail), OutsideElse(rest, inElse));
    case Conditional(_, _, _, _, _) =>
      KeptConditional(r, rest, inElse);
  }

  lemma {:induction false} KeptConditional(r: Region, rest: seq<Line>, inElse: seq<bool>)
    requires WellFormed(r) && r.Conditional?
    ensures OutsideElse(Lines(r) + rest, inElse) == (if true in inElse then [] else Kept(r)) + OutsideElse(rest, inElse)
    decreases r, 0
  {
    hide OutsideElse, Lines, ArmLines, Kept;
    var l3 := [r.endLine] + (Lines(r.rest) + rest);
    var l2 := ArmLines(r.arms) + l3;
    LinesOfConditional(r, rest, l2, l3);
    OutsideIf(r.ifLine, Lines(r.body) + l2, inElse);
    InnerFlag(inElse, false);
    KeptRegion(r.body, l2, inElse + [false]);
    KeptArms(r.arms, l3, inElse, false);
    OutsideEndif(r.endLine, Lines(r.rest) + rest, inElse, r.arms.Arm?);
    KeptRegion(r.rest, rest, inElse);
    KeptOfConditional(r, OutsideElse(rest, inElse));
  }

  lemma LinesOfConditional(r: Region, rest: seq<Line>, l2: seq<Line>, l3: seq<Line>)
    requires r.Conditional? && l3 == [r.endLine] + (Lines(r.rest) + rest) && l2 == ArmLines(r.arms) + l3
    ensures Lines(r) + rest == [r.ifLine] + (Lines(r.body) + l2)
  {
    var body, arms, end := Lines(r.body), ArmLines(r.arms), [r.endLine];
    ConcatInto(body, arms, end, Lines(r.rest), rest);
    ConcatAssociative([r.ifLine], body + (arms + (end + Lines(r.rest))), rest);
  }

  lemma KeptOfConditional(r: Region, rest: seq<Line>)
    requires r.Conditional?
    ensures [r.ifLine] + (Kept(r.body) + ([r.endLine] + (Kept(r.rest) + rest))) == Kept(r) + rest
  {
    ConcatInto([r.ifLine], Kept(r.body), [r.endLine], Kept(r.rest), rest);
  }

  lemma {:induction false} KeptArms(a: Arms, rest: seq<Line>, inElse: seq<bool>, b: bool)
    requires ArmsWellFormed(a)
    ensures OutsideElse(ArmLines(a) + rest, inElse + [b]) == OutsideElse(rest, inElse + [b || a.Arm?])
  {
    hide OutsideElse;
    match a
    case NoArms =>
      assert ArmLines(a) + rest == rest;
    case Arm(elseLine, body, more) =>
      var l2 := ArmLines(more) + rest;
      assert ArmLines(a) + rest == [elseLine] + (Lines(body) + l2) by {
        assert (Lines(body) + ArmLines(more)) + rest == Lines(body) + l2;
      }
      OutsideElseLine(elseLine, Lines(body) + l2, inElse, b);
      InnerFlag(inElse, true);
      KeptRegion(body, l2, inElse + [true]);
      KeptArms(more, rest, inElse, true);
  }

  /**
    For every well-nested sequence of lines and every state: the stack ends as if only the lines
    outside all #else and #elif arms had been there and none had been a directive, and the
    checkpoints end as they began.
   */
  lemma ArmsAreErased(lines: seq<Line>, st: State)
    requires WellNested(lines)
    ensures Run(lines, st) == State(Effects(OutsideElse(lines, []), st.stack), st.checkpoints)
  {
    var r :| WellFormed(r) && Lines(r) == lines;
    RunRegion(r, st);
    KeptRegion(r, [], []);
    assert Lines(r) + [] == lines && Kept(r) + [] == Kept(r);
  }
}
