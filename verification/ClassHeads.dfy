/**
  What lines without heads and braces do to the innermost block, and what that decides: a class
  head counts exactly when the parentheses opened before it have been closed again.
 */
module ClassHeads {
  import opened NestingState
  import opened PreprocessorErasure
  import opened ScopeTracking

  /** No directive, no heads, no braces, semicolons or closing parentheses to act on. */
  predicate Quiet(line: Line) {
    && line.directive == NoDirective && line.namespaces == [] && line.classHead.None?
    && line.behind.tokens == []
  }

  ghost predicate AllQuiet(lines: seq<Line>) {
    forall i :: 0 <= i < |lines| ==> Quiet(lines[i])
  }

  /** How many more parentheses the lines open than close. */
  function Parentheses(lines: seq<Line>): int {
    if lines == [] then 0 else lines[0].parentheses + Parentheses(lines[1..])
  }

  /** The access specifier that the lines end with, if they have any. */
  function LastAccess(lines: seq<Line>, access: string): string {
    if lines == [] then access
    else LastAccess(lines[1..], if lines[0].behind.access.Some? then lines[0].behind.access.value else access)
  }

  ghost predicate HasColon(lines: seq<Line>) {
    exists i :: 0 <= i < |lines| && lines[i].bareColon
  }

  // ----- Lines that only count -----

  /** `b'` is block `b` after a quiet line. */
  ghost predicate Counts(line: Line, b: BlockInfo, b': BlockInfo) {
    && OutlineOf(b') == OutlineOf(b)
    && b'.openParentheses == b.openParentheses + line.parentheses
    && b'.asm == CountParentheses(line, b).asm
    && (b.kind.Class? ==>
          && b'.kind.access == (if line.behind.access.Some? then line.behind.access.value else b.kind.access)
          && (b'.kind.isDerived <==> b.kind.isDerived || (!b.seenOpenBrace && line.bareColon)))
  }

  lemma QuietEffect(line: Line, stack: Stack)
    requires Quiet(line) && stack != []
    ensures var r := Effect(line, stack);
            |r| == |stack| && r[..|stack| - 1] == stack[..|stack| - 1] && Counts(line, Top(stack), Top(r))
  {
  }

  lemma QuietStep(line: Line, st: State)
    requires Quiet(line) && st.stack != []
    ensures var r := Step(line, st);
            && r.checkpoints == st.checkpoints && |r.stack| == |st.stack|
            && r.stack[..|st.stack| - 1] == st.stack[..|st.stack| - 1]
            && Counts(line, Top(st.stack), Top(r.stack))
  {
    hide Effect, Counts;
    QuietEffect(line, st.stack);
  }

  lemma {:induction false} QuietRun(lines: seq<Line>, st: State)
    requires AllQuiet(lines) && st.stack != []
    ensures var r := Run(lines, st);
            && r.checkpoints == st.checkpoints && |r.stack| == |st.stack|
            && r.stack[..|st.stack| - 1] == st.stack[..|st.stack| - 1]
            && OutlineOf(Top(r.stack)) == OutlineOf(Top(st.stack))
            && Top(r.stack).openParentheses == Top(st.stack).openParentheses + Parentheses(lines)
    decreases |lines|
  {
    if lines != [] {
      assert Quiet(lines[0]);
      hide Step, Quiet;
      QuietStep(lines[0], st);
      QuietRun(lines[1..], Step(lines[0], st));
    }
  }

  lemma SameOutline(a: Stack, b: Stack)
    requires |a| == |b| > 0 && a[..|a| - 1] == b[..|a| - 1] && OutlineOf(Top(a)) == OutlineOf(Top(b))
    ensures Outline(a) == Outline(b)
  {
    forall i | 0 <= i < |a|
      ensures OutlineOf(a[i]) == OutlineOf(b[i])
    {
      if i < |a| - 1 {
        assert a[i] == a[..|a| - 1][i] && b[i] == b[..|a| - 1][i];
      }
    }
  }

  // ----- When a class head counts -----

  lemma HearsIffClosed(line: Line, stack: Stack)
    requires line.namespaces == [] && line.classHead.Some?
    ensures Hears(line, stack) <==>
            !line.classHead.value.templateArgument && (stack == [] || Top(stack).openParentheses + line.parentheses == 0)
  {
  }

  /**
    A class head declares a class exactly when it is no template argument and the parentheses of
    the lines since the innermost block was quiet, its own included, add up to zero; otherwise the
    line acts by its braces alone.
   */
  lemma HeadCountsIffClosed(lines: seq<Line>, line: Line, st: State)
    requires st.stack != [] && Top(st.stack).openParentheses == 0 && AllQuiet(lines)
    requires line.directive == NoDirective && line.namespaces == [] && line.classHead.Some?
    ensures var r, head := Run(lines + [line], st), line.classHead.value;
            && r.checkpoints == st.checkpoints
            && Outline(r.stack) ==
               if !head.templateArgument && Parentheses(lines) + line.parentheses == 0 then
                 DoAll([Declare(ClassScope(head.name, head.isStruct))] + Braces(head.behind.tokens), Outline(st.stack))
               else DoAll(Braces(line.behind.tokens), Outline(st.stack))
  {
    hide Effect, DoAll, OutlineOf, Braces;
    var mid := Run(lines, st);
    RunConcat(lines, [line], st);
    QuietRun(lines, st);
    SameOutline(mid.stack, st.stack);
    assert Run([line], mid) == Step(line, mid) by {
      assert [line][1..] == [];
    }
    EffectIsEvents(line, mid.stack);
    HearsIffClosed(line, mid.stack);
    assert NamespaceEvents([]) == [];
    assert [] + ClassEvents(line, Hears(line, mid.stack)) == ClassEvents(line, Hears(line, mid.stack));
  }

  /** Outside all blocks nothing is counted, and every head counts. */
  lemma OutermostHeadCounts(line: Line, checkpoints: seq<Checkpoint>)
    requires line.directive == NoDirective && line.namespaces == [] && line.classHead.Some?
    requires !line.classHead.value.templateArgument
    ensures var r, head := Step(line, State([], checkpoints)), line.classHead.value;
            Outline(r.stack) == DoAll([Declare(ClassScope(head.name, head.isStruct))] + Braces(head.behind.tokens), [])
  {
    hide Effect, DoAll, OutlineOf, Braces;
    EffectIsEvents(line, []);
    HearsIffClosed(line, []);
    assert NamespaceEvents([]) == [] && Outline([]) == [];
    assert [] + ClassEvents(line, true) == ClassEvents(line, true);
  }

  // ----- What is known about the class -----

  /** The access of a class is the last specifier given, and it is derived if its head has a colon. */
  lemma {:induction false} ClassIsTracked(lines: seq<Line>, st: State)
    requires AllQuiet(lines) && st.stack != [] && Top(st.stack).kind.Class?
    ensures var b, b' := Top(st.stack), Run(lines, st).stack;
            && b' != [] && Top(b').kind.Class? && OutlineOf(Top(b')) == OutlineOf(b)
            && Top(b').kind.access == LastAccess(lines, b.kind.access)
            && (Top(b').kind.isDerived <==> b.kind.isDerived || (!b.seenOpenBrace && HasColon(lines)))
    decreases |lines|
  {
    if lines != [] {
      assert Quiet(lines[0]);
      hide Step, Quiet;
      QuietStep(lines[0], st);
      ClassIsTracked(lines[1..], Step(lines[0], st));
      ColonOf(lines);
    }
  }

  lemma ColonOf(lines: seq<Line>)
    requires lines != []
    ensures HasColon(lines) <==> lines[0].bareColon || HasColon(lines[1..])
  {
    if i :| 0 <= i < |lines| && lines[i].bareColon {
      if i > 0 {
        assert lines[1..][i - 1] == lines[i];
      }
    }
    if i :| 0 <= i < |lines[1..]| && lines[1..][i].bareColon {
      assert lines[i + 1] == lines[1..][i];
    }
  }

  // ----- Inline assembly -----

  /** Once inside, assembly lasts while parentheses are open; the line that closes the last one ends it. */
  lemma {:induction false} AssemblyLastsWhileOpen(lines: seq<Line>, st: State)
    requires AllQuiet(lines) && st.stack != [] && Top(st.stack).asm == InsideAsm
    requires forall k :: 0 <= k < |lines| ==> Top(st.stack).openParentheses + Parentheses(lines[..k]) != 0
    ensures var r := Run(lines, st).stack;
            r != [] && (lines != [] ==>
              Top(r).asm == if Top(st.stack).openParentheses + Parentheses(lines) == 0 then EndAsm else InsideAsm)
    decreases |lines|
  {
    if lines != [] {
      assert Quiet(lines[0]);
      var rest, next := lines[1..], Step(lines[0], st);
      QuietStep(lines[0], st);
      if rest != [] {
        assert lines[..1] == [lines[0]] && Parentheses([lines[0]]) == lines[0].parentheses by {
          assert [lines[0]][1..] == [];
        }
        assert Top(next.stack).asm == InsideAsm;
        forall k | 0 <= k < |rest|
          ensures Top(next.stack).openParentheses + Parentheses(rest[..k]) != 0
        {
          assert lines[..k + 1][0] == lines[0] && lines[..k + 1][1..] == rest[..k];
          assert Parentheses(lines[..k + 1]) == lines[0].parentheses + Parentheses(rest[..k]);
        }
        hide Step, Quiet, Counts;
        AssemblyLastsWhileOpen(rest, next);
      }
    }
  }

  /** It starts on an `asm` line that leaves exactly one parenthesis open, and on no other. */
  lemma AssemblyStarts(line: Line, st: State)
    requires Quiet(line) && st.stack != [] && Top(st.stack).openParentheses == 0
    requires Top(st.stack).asm == NoAsm || Top(st.stack).asm == EndAsm
    ensures Top(Step(line, st).stack).asm == if line.asm && line.parentheses == 1 then InsideAsm else NoAsm
  {
    QuietStep(line, st);
  }

  // ----- What a new block starts with -----

  /** A class starts public if it is a struct and private otherwise, unless its line says more. */
  lemma ClassStarts(line: Line, st: State)
    requires line.directive == NoDirective && line.namespaces == [] && line.classHead.Some?
    requires AcceptsClass(line, Counted(line, st.stack)) && line.classHead.value.behind.tokens == []
    ensures var r, head := Step(line, st).stack, line.classHead.value;
            && |r| == |st.stack| + 1
            && var access := if head.behind.access.Some? then head.behind.access.value
                             else if head.isStruct then "public" else "private";
               Top(r) == BlockInfo(false, 0, NoAsm, Class(head.name, head.isStruct, access, line.bareColon))
  {
  }

  /** A brace behind `asm` starts a block of assembly, any other brace an ordinary block. */
  lemma BraceStarts(line: Line, st: State, externC: bool, asm: bool)
    requires line.directive == NoDirective && line.namespaces == [] && line.classHead.None?
    requires line.behind.tokens == [OpenBrace(externC, asm)] && SeenOpenBrace(st.stack)
    ensures var r := Step(line, st).stack;
            && |r| == |st.stack| + 1 && Outline(r[..|st.stack|]) == Outline(st.stack)
            && Top(r) == BlockInfo(true, 0, if asm && !externC then BlockAsm else NoAsm, if externC then ExternC else Block)
  {
    var before := UpdateAccess(line.behind, CheckBegin(line, Counted(line, st.stack)));
    assert line.behind.tokens[1..] == [];
    assert Effect(line, st.stack) == ApplyTokens([], ApplyToken(OpenBrace(externC, asm), before));
    ChecksAreQuiet(line, line.behind, Counted(line, st.stack));
    CountIsQuiet(line, st.stack);
    assert Step(line, st).stack[..|st.stack|] == before;
  }

  /** A block of assembly stays one. */
  lemma {:induction false} AssemblyBlockLasts(lines: seq<Line>, st: State)
    requires AllQuiet(lines) && st.stack != [] && Top(st.stack).asm == BlockAsm
    ensures var r := Run(lines, st).stack;
            r != [] && Top(r).asm == BlockAsm
    decreases |lines|
  {
    if lines != [] {
      assert Quiet(lines[0]);
      QuietStep(lines[0], st);
      AssemblyBlockLasts(lines[1..], Step(lines[0], st));
    }
  }
}
