/**
  cpplint's brace stack, updated line by line, with checkpoints across #if / #else / #endif.

  A line is given as the regular expressions of the checker see it: which directive it is, how
  many parentheses it opens, which namespace and class heads it starts with, and the braces,
  semicolons and closing parentheses of what is left.  Deep copies of the stack are values here.
 */
module NestingState {
  import opened Options

  datatype Asm = NoAsm | InsideAsm | EndAsm | BlockAsm

  datatype Kind =
    | Block
    | ExternC
    | Class(name: string, isStruct: bool, access: string, isDerived: bool)
    | Namespace(name: string)

  datatype BlockInfo = BlockInfo(seenOpenBrace: bool, openParentheses: int, asm: Asm, kind: Kind)

  // ----- A line as the checker sees it -----

  datatype Directive = NoDirective | If | Else | Endif    // Else stands for #else and #elif

  datatype Token =
    | OpenBrace(externC: bool, asm: bool)    // whether the text in front of it reads `extern "..."` or `asm`
    | SemicolonOrParen
    | CloseBrace

  /** What is left of a line behind its heads: an access specifier, if any, and the tokens. */
  datatype Tail = Tail(access: Option<string>, tokens: seq<Token>)

  datatype NamespaceHead = NamespaceHead(name: string, opens: bool)

  datatype ClassHead = ClassHead(name: string, isStruct: bool, templateArgument: bool, behind: Tail)

  datatype Line = Line(
    directive: Directive,
    parentheses: int,
    asm: bool,
    namespaces: seq<NamespaceHead>,
    classHead: Option<ClassHead>,
    bareColon: bool,
    behind: Tail)

  // ----- What a line does to the stack -----

  type Stack = seq<BlockInfo>

  function Top(stack: Stack): BlockInfo
    requires stack != []
  {
    stack[|stack| - 1]
  }

  function WithTop(stack: Stack, top: BlockInfo): Stack
    requires stack != []
  {
    stack[|stack| - 1 := top]
  }

  function NewBlock(seenOpenBrace: bool, kind: Kind): BlockInfo {
    BlockInfo(seenOpenBrace, 0, NoAsm, kind)
  }

  predicate SeenOpenBrace(stack: Stack) {
    stack == [] || Top(stack).seenOpenBrace
  }

  function CountParentheses(line: Line, b: BlockInfo): BlockInfo {
    var open := b.openParentheses + line.parentheses;
    var asm :=
      match b.asm
      case NoAsm => if line.parentheses != 0 && open == 1 && line.asm then InsideAsm else NoAsm
      case EndAsm => if line.parentheses != 0 && open == 1 && line.asm then InsideAsm else NoAsm
      case InsideAsm => if open == 0 then EndAsm else InsideAsm
      case BlockAsm => BlockAsm;
    b.(openParentheses := open, asm := asm)
  }

  function Counted(line: Line, stack: Stack): Stack {
    if stack == [] then stack else WithTop(stack, CountParentheses(line, Top(stack)))
  }

  function PushNamespaces(heads: seq<NamespaceHead>, stack: Stack): Stack {
    if heads == [] then stack
    else PushNamespaces(heads[1..], stack + [NewBlock(heads[0].opens, Namespace(heads[0].name))])
  }

  predicate AcceptsClass(line: Line, stack: Stack) {
    line.classHead.Some? && (stack == [] || Top(stack).openParentheses == 0) && !line.classHead.value.templateArgument
  }

  function PushClass(line: Line, stack: Stack): Stack {
    if AcceptsClass(line, stack) then
      var head := line.classHead.value;
      stack + [NewBlock(false, Class(head.name, head.isStruct, if head.isStruct then "public" else "private", false))]
    else stack
  }

  function CheckBegin(line: Line, stack: Stack): Stack {
    if !SeenOpenBrace(stack) && Top(stack).kind.Class? && line.bareColon then
      WithTop(stack, Top(stack).(kind := Top(stack).kind.(isDerived := true)))
    else stack
  }

  function UpdateAccess(tail: Tail, stack: Stack): Stack {
    if stack != [] && Top(stack).kind.Class? && tail.access.Some? then
      WithTop(stack, Top(stack).(kind := Top(stack).kind.(access := tail.access.value)))
    else stack
  }

  function ApplyToken(token: Token, stack: Stack): Stack {
    match token
    case OpenBrace(externC, asm) =>
      if !SeenOpenBrace(stack) then WithTop(stack, Top(stack).(seenOpenBrace := true))
      else if externC then stack + [NewBlock(true, ExternC)]
      else stack + [NewBlock(true, Block).(asm := if asm then BlockAsm else NoAsm)]
    case SemicolonOrParen =>
      if !SeenOpenBrace(stack) then stack[..|stack| - 1] else stack
    case CloseBrace =>
      if stack != [] then stack[..|stack| - 1] else stack
  }

  function ApplyTokens(tokens: seq<Token>, stack: Stack): Stack {
    if tokens == [] then stack else ApplyTokens(tokens[1..], ApplyToken(tokens[0], stack))
  }

  /** The effect of a line on the stack, apart from its being a directive. */
  function Effect(line: Line, stack: Stack): Stack {
    var outer := PushNamespaces(line.namespaces, Counted(line, stack));
    var tail := if AcceptsClass(line, outer) then line.classHead.value.behind else line.behind;
    ApplyTokens(tail.tokens, UpdateAccess(tail, CheckBegin(line, PushClass(line, outer))))
  }

  // ----- Checkpoints -----

  datatype Checkpoint = Checkpoint(stackBeforeIf: Stack, stackBeforeElse: Stack, seenElse: bool)

  datatype State = State(stack: Stack, checkpoints: seq<Checkpoint>)

  function Preprocess(directive: Directive, st: State): State {
    var n := |st.checkpoints| - 1;
    match directive
    case NoDirective => st
    case If => st.(checkpoints := st.checkpoints + [Checkpoint(st.stack, [], false)])
    case Else =>
      if n < 0 then st
      else
        var top := st.checkpoints[n];
        var seen := if top.seenElse then top else Checkpoint(top.stackBeforeIf, st.stack, true);
        State(top.stackBeforeIf, st.checkpoints[n := seen])
    case Endif =>
      if n < 0 then st
      else
        var top := st.checkpoints[n];
        State(if top.seenElse then top.stackBeforeElse else st.stack, st.checkpoints[..n])
  }

  function Step(line: Line, st: State): State {
    var pre := Preprocess(line.directive, st);
    pre.(stack := Effect(line, pre.stack))
  }

  function Run(lines: seq<Line>, st: State): State {
    if lines == [] then st else Run(lines[1..], Step(lines[0], st))
  }

  // ----- The object that cpplint updates in place -----

  class Nesting {
    var stack: Stack
    var checkpoints: seq<Checkpoint>    // pp_stack

    function Value(): State
      reads this
    {
      State(stack, checkpoints)
    }

    constructor ()
      ensures Value() == State([], [])
    {
      stack, checkpoints := [], [];
    }

    method UpdatePreprocessor(directive: Directive)
      modifies this
      ensures Value() == Preprocess(directive, old(Value()))
    {
      var n := |checkpoints| - 1;
      match directive
      case NoDirective =>
      case If =>
        checkpoints := checkpoints + [Checkpoint(stack, [], false)];
      case Else =>
        if checkpoints != [] {
          if !checkpoints[n].seenElse {
            checkpoints := checkpoints[n := checkpoints[n].(seenElse := true, stackBeforeElse := stack)];
          }
          stack := checkpoints[n].stackBeforeIf;
        }
      case Endif =>
        if checkpoints != [] {
          if checkpoints[n].seenElse {
            stack := checkpoints[n].stackBeforeElse;
          }
          checkpoints := checkpoints[..n];
        }
    }

    method Update(line: Line)
      modifies this
      ensures Value() == Step(line, old(Value()))
    {
      UpdatePreprocessor(line.directive);
      ghost var pre := Value();
      if stack != [] {
        stack := WithTop(stack, CountParentheses(line, Top(stack)));
      }
      ghost var counted := stack;
      for i := 0 to |line.namespaces|
        invariant checkpoints == pre.checkpoints
        invariant PushNamespaces(line.namespaces, counted) == PushNamespaces(line.namespaces[i..], stack)
      {
        var head := line.namespaces[i];
        stack := stack + [NewBlock(head.opens, Namespace(head.name))];
        assert line.namespaces[i..][1..] == line.namespaces[i + 1..];
      }
      assert line.namespaces[|line.namespaces|..] == [];
      var tail := line.behind;
      if AcceptsClass(line, stack) {
        tail := line.classHead.value.behind;
        stack := PushClass(line, stack);
      }
      stack := CheckBegin(line, stack);
      stack := UpdateAccess(tail, stack);
      ghost var scanned := stack;
      assert Effect(line, pre.stack) == ApplyTokens(tail.tokens, scanned);
      for i := 0 to |tail.tokens|
        invariant checkpoints == pre.checkpoints
        invariant ApplyTokens(tail.tokens, scanned) == ApplyTokens(tail.tokens[i..], stack)
      {
        stack := ApplyToken(tail.tokens[i], stack);
        assert tail.tokens[i..][1..] == tail.tokens[i + 1..];
      }
      assert tail.tokens[|tail.tokens|..] == [];
    }
  }
}
