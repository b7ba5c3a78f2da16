/**
  What the brace stack is for: at every point of properly braced code it is the chain of scopes
  that enclose the point.

  The stack is read as an outline, which forgets access specifiers, base classes and inline
  assembly.  Code is a grammar of declarations and scopes, whose text may be laid out over any
  lines and any preprocessor branches.  A class head counts unless the checker takes it for an
  argument, which it does in a template argument list and behind an open parenthesis.
 */
module ScopeTracking {
  import opened NestingState
  import opened PreprocessorErasure
  import opened Sequences

  datatype ScopeKind = BlockScope | ExternScope | ClassScope(name: string, isStruct: bool) | NamespaceScope(name: string)

  datatype Scope = Scope(begun: bool, kind: ScopeKind)

  function OutlineOf(b: BlockInfo): Scope {
    Scope(b.seenOpenBrace,
          match b.kind
          case Block => BlockScope
          case ExternC => ExternScope
          case Class(name, isStruct, _, _) => ClassScope(name, isStruct)
          case Namespace(name) => NamespaceScope(name))
  }

  function Outline(stack: Stack): (r: seq<Scope>)
    ensures |r| == |stack|
    ensures forall i :: 0 <= i < |stack| ==> r[i] == OutlineOf(stack[i])
  {
    seq(|stack|, i requires 0 <= i < |stack| => OutlineOf(stack[i]))
  }

  // ----- Events -----

  /** What a line does, one thing after another. */
  datatype Event = Declare(kind: ScopeKind) | Brace(token: Token)

  predicate Opened(scopes: seq<Scope>) {
    scopes == [] || scopes[|scopes| - 1].begun
  }

  function Do(e: Event, scopes: seq<Scope>): seq<Scope> {
    var n := |scopes| - 1;
    match e
    case Declare(kind) => scopes + [Scope(false, kind)]
    case Brace(OpenBrace(externC, _)) =>
      if Opened(scopes) then scopes + [Scope(true, if externC then ExternScope else BlockScope)]
      else scopes[..n] + [Scope(true, scopes[n].kind)]
    case Brace(SemicolonOrParen) => if Opened(scopes) then scopes else scopes[..n]
    case Brace(CloseBrace) => if scopes == [] then scopes else scopes[..n]
  }

  function DoAll(events: seq<Event>, scopes: seq<Scope>): seq<Scope> {
    if events == [] then scopes else DoAll(events[1..], Do(events[0], scopes))
  }

  lemma {:induction false} DoConcat(a: seq<Event>, b: seq<Event>, scopes: seq<Scope>)
    ensures DoAll(a + b, scopes) == DoAll(b, DoAll(a, scopes))
  {
    hide Do;
    if a == [] {
      assert a + b == b;
    } else {
      DoConcat(a[1..], b, Do(a[0], scopes));
      assert (a + b)[1..] == a[1..] + b;
    }
  }

  lemma DoOne(e: Event, scopes: seq<Scope>)
    ensures DoAll([e], scopes) == Do(e, scopes)
  {
    hide Do;
    assert [e][1..] == [];
  }

  lemma DoFirst(e: Event, rest: seq<Event>, scopes: seq<Scope>)
    ensures DoAll([e] + rest, scopes) == DoAll(rest, Do(e, scopes))
  {
    hide Do;
    assert ([e] + rest)[1..] == rest;
  }

  // ----- Lines as events -----

  function NamespaceEvents(heads: seq<NamespaceHead>): seq<Event> {
    if heads == [] then []
    else
      [Declare(NamespaceScope(heads[0].name))]
      + ((if heads[0].opens then [Brace(OpenBrace(false, false))] else []) + NamespaceEvents(heads[1..]))
  }

  function Braces(tokens: seq<Token>): seq<Event> {
    if tokens == [] then [] else [Brace(tokens[0])] + Braces(tokens[1..])
  }

  function ClassEvents(line: Line, heard: bool): seq<Event>
    requires heard ==> line.classHead.Some?
  {
    if heard then
      [Declare(ClassScope(line.classHead.value.name, line.classHead.value.isStruct))]
      + Braces(line.classHead.value.behind.tokens)
    else Braces(line.behind.tokens)
  }

  /** The events of a line whose class head, if any, is taken for one, or for plain text. */
  function Events(line: Line, heard: bool): seq<Event>
    requires heard ==> line.classHead.Some?
  {
    NamespaceEvents(line.namespaces) + ClassEvents(line, heard)
  }

  /** Whether the class head of the line is taken for one. */
  predicate Hears(line: Line, stack: Stack)
  {
    AcceptsClass(line, PushNamespaces(line.namespaces, Counted(line, stack)))
  }

  /** The events of the lines when they are read from `stack` on. */
  function Heard(lines: seq<Line>, stack: Stack): seq<Event> {
    if lines == [] then []
    else Events(lines[0], Hears(lines[0], stack)) + Heard(lines[1..], Effect(lines[0], stack))
  }

  /** A class head that is no template argument. */
  predicate IsHead(line: Line) {
    line.classHead.Some? && !line.classHead.value.templateArgument
  }

  /** The events of the lines with every class head counted. */
  function AllEvents(lines: seq<Line>): seq<Event> {
    if lines == [] then [] else Events(lines[0], IsHead(lines[0])) + AllEvents(lines[1..])
  }

  /** No class head stands behind an open parenthesis. */
  ghost predicate AllHeard(lines: seq<Line>, stack: Stack) {
    lines == [] || ((IsHead(lines[0]) ==> Hears(lines[0], stack)) && AllHeard(lines[1..], Effect(lines[0], stack)))
  }

  lemma {:induction false} AllHeardAreEvents(lines: seq<Line>, stack: Stack)
    ensures AllHeard(lines, stack) ==> Heard(lines, stack) == AllEvents(lines)
  {
    hide Effect, Events;
    if lines != [] && AllHeard(lines, stack) {
      assert Hears(lines[0], stack) ==> IsHead(lines[0]);
      AllHeardAreEvents(lines[1..], Effect(lines[0], stack));
    }
  }

  lemma SameTop(stack: Stack, top: BlockInfo)
    requires stack != [] && OutlineOf(top) == OutlineOf(Top(stack))
    ensures Outline(WithTop(stack, top)) == Outline(stack)
  {
  }

  lemma {:induction false} NamespacesAreEvents(heads: seq<NamespaceHead>, stack: Stack)
    ensures Outline(PushNamespaces(heads, stack)) == DoAll(NamespaceEvents(heads), Outline(stack))
  {
    if heads != [] {
      var pushed := stack + [NewBlock(heads[0].opens, Namespace(heads[0].name))];
      var declared := Outline(stack) + [Scope(false, NamespaceScope(heads[0].name))];
      var rest := NamespaceEvents(heads[1..]);
      NamespacesAreEvents(heads[1..], pushed);
      if heads[0].opens {
        DoFirst(Brace(OpenBrace(false, false)), rest, declared);
        assert Do(Brace(OpenBrace(false, false)), declared) == Outline(pushed);
        DoFirst(Declare(NamespaceScope(heads[0].name)), [Brace(OpenBrace(false, false))] + rest, Outline(stack));
      } else {
        assert [] + rest == rest;
        assert declared == Outline(pushed);
        DoFirst(Declare(NamespaceScope(heads[0].name)), rest, Outline(stack));
      }
    }
  }

  lemma TokenIsEvent(token: Token, stack: Stack)
    ensures Outline(ApplyToken(token, stack)) == Do(Brace(token), Outline(stack))
  {
    assert Opened(Outline(stack)) <==> SeenOpenBrace(stack);
  }

  lemma {:induction false} TokensAreEvents(tokens: seq<Token>, stack: Stack)
    ensures Outline(ApplyTokens(tokens, stack)) == DoAll(Braces(tokens), Outline(stack))
  {
    hide ApplyToken, Do;
    if tokens != [] {
      TokenIsEvent(tokens[0], stack);
      TokensAreEvents(tokens[1..], ApplyToken(tokens[0], stack));
      DoFirst(Brace(tokens[0]), Braces(tokens[1..]), Outline(stack));
    }
  }

  lemma CountIsQuiet(line: Line, stack: Stack)
    ensures Outline(Counted(line, stack)) == Outline(stack)
  {
    if stack != [] {
      SameTop(stack, CountParentheses(line, Top(stack)));
    }
  }

  lemma ChecksAreQuiet(line: Line, tail: Tail, stack: Stack)
    ensures Outline(UpdateAccess(tail, CheckBegin(line, stack))) == Outline(stack)
  {
  }

  /** A line acts on the outline as its events. */
  lemma EffectIsEvents(line: Line, stack: Stack)
    ensures Outline(Effect(line, stack)) == DoAll(Events(line, Hears(line, stack)), Outline(stack))
  {
    hide CountParentheses, PushNamespaces, CheckBegin, UpdateAccess, ApplyTokens, DoAll, NamespaceEvents, Braces;
    var heard, counted := Hears(line, stack), Counted(line, stack);
    CountIsQuiet(line, stack);
    var outer := PushNamespaces(line.namespaces, counted);
    NamespacesAreEvents(line.namespaces, counted);
    var tail := if heard then line.classHead.value.behind else line.behind;
    var inner := PushClass(line, outer);
    ChecksAreQuiet(line, tail, inner);
    TokensAreEvents(tail.tokens, UpdateAccess(tail, CheckBegin(line, inner)));
    DoConcat(NamespaceEvents(line.namespaces), ClassEvents(line, heard), Outline(stack));
    if heard {
      var declare := Declare(ClassScope(line.classHead.value.name, line.classHead.value.isStruct));
      assert Outline(inner) == Do(declare, Outline(outer));
      DoFirst(declare, Braces(tail.tokens), Outline(outer));
    }
  }

  lemma {:induction false} EffectsAreEvents(lines: seq<Line>, stack: Stack)
    ensures Outline(Effects(lines, stack)) == DoAll(Heard(lines, stack), Outline(stack))
  {
    hide Effect, Events, DoAll;
    if lines == [] {
      NothingToDo(Outline(stack));
    } else {
      EffectIsEvents(lines[0], stack);
      EffectsAreEvents(lines[1..], Effect(lines[0], stack));
      DoConcat(Events(lines[0], Hears(lines[0], stack)), Heard(lines[1..], Effect(lines[0], stack)), Outline(stack));
    }
  }

  lemma NothingToDo(scopes: seq<Scope>)
    ensures DoAll([], scopes) == scopes
  {
  }

  // ----- Properly braced code -----

  /** A head: what a scope is declared as, or the plain brace that opens an unnamed one. */
  datatype Head = Declared(kind: ScopeKind) | Unnamed(externC: bool, asm: bool)

  datatype Code =
    | Empty
    | Separator(rest: Code)                             // a semicolon or a closing parenthesis
    | Forward(kind: ScopeKind, rest: Code)              // a head and a semicolon: no scope
    | Nested(head: Head, body: Code, rest: Code)        // a head, a body in braces

  function Opening(head: Head): seq<Event> {
    match head
    case Declared(kind) => [Declare(kind), Brace(OpenBrace(false, false))]
    case Unnamed(externC, asm) => [Brace(OpenBrace(externC, asm))]
  }

  function Text(code: Code): seq<Event> {
    match code
    case Empty => []
    case Separator(rest) => [Brace(SemicolonOrParen)] + Text(rest)
    case Forward(kind, rest) => [Declare(kind), Brace(SemicolonOrParen)] + Text(rest)
    case Nested(head, body, rest) => Opening(head) + (Text(body) + ([Brace(CloseBrace)] + Text(rest)))
  }

  function ScopeOf(head: Head): Scope {
    match head
    case Declared(kind) => Scope(true, kind)
    case Unnamed(externC, _) => Scope(true, if externC then ExternScope else BlockScope)
  }

  function TextTo(levels: seq<(Code, Head)>, here: Code): seq<Event> {
    if levels == [] then Text(here) else Text(levels[0].0) + (Opening(levels[0].1) + TextTo(levels[1..], here))
  }

  function Enclosing(levels: seq<(Code, Head)>): seq<Scope> {
    if levels == [] then [] else [ScopeOf(levels[0].1)] + Enclosing(levels[1..])
  }

  lemma OpeningOpens(head: Head, scopes: seq<Scope>)
    requires Opened(scopes)
    ensures DoAll(Opening(head), scopes) == scopes + [ScopeOf(head)]
  {
    match head
    case Declared(kind) =>
      var declared := scopes + [Scope(false, kind)];
      assert Opening(head) == [Declare(kind)] + [Brace(OpenBrace(false, false))];
      DoFirst(Declare(kind), [Brace(OpenBrace(false, false))], scopes);
      DoOne(Brace(OpenBrace(false, false)), declared);
      assert declared[..|scopes|] == scopes;
    case Unnamed(externC, asm) =>
      DoOne(Brace(OpenBrace(externC, asm)), scopes);
  }

  lemma ForwardVanishes(kind: ScopeKind, scopes: seq<Scope>)
    ensures DoAll([Declare(kind), Brace(SemicolonOrParen)], scopes) == scopes
  {
    var declared := scopes + [Scope(false, kind)];
    assert [Declare(kind), Brace(SemicolonOrParen)] == [Declare(kind)] + [Brace(SemicolonOrParen)];
    DoFirst(Declare(kind), [Brace(SemicolonOrParen)], scopes);
    DoOne(Brace(SemicolonOrParen), declared);
    assert declared[..|scopes|] == scopes;
  }

  /** Complete code leaves the scopes as they were. */
  lemma {:induction false} CodeRestores(code: Code, scopes: seq<Scope>)
    requires Opened(scopes)
    ensures DoAll(Text(code), scopes) == scopes
  {
    match code
    case Empty =>
    case Separator(rest) =>
      DoFirst(Brace(SemicolonOrParen), Text(rest), scopes);
      CodeRestores(rest, scopes);
    case Forward(kind, rest) =>
      DoConcat([Declare(kind), Brace(SemicolonOrParen)], Text(rest), scopes);
      ForwardVanishes(kind, scopes);
      CodeRestores(rest, scopes);
    case Nested(head, body, rest) =>
      var inside, behind := scopes + [ScopeOf(head)], [Brace(CloseBrace)] + Text(rest);
      hide DoAll;
      DoConcat(Opening(head), Text(body) + behind, scopes);
      OpeningOpens(head, scopes);
      DoConcat(Text(body), behind, inside);
      CodeRestores(body, inside);
      DoFirst(Brace(CloseBrace), Text(rest), inside);
      assert inside[..|scopes|] == scopes;
      CodeRestores(rest, scopes);
  }

  /** At a point of the code the scopes have grown by those that enclose the point. */
  lemma {:induction false} ScopesAtPoint(levels: seq<(Code, Head)>, here: Code, scopes: seq<Scope>)
    requires Opened(scopes)
    ensures DoAll(TextTo(levels, here), scopes) == scopes + Enclosing(levels)
  {
    hide DoAll, Text, Opening;
    if levels == [] {
      CodeRestores(here, scopes);
      assert scopes + [] == scopes;
    } else {
      var (before, head) := levels[0];
      var more := TextTo(levels[1..], here);
      DoConcat(Text(before), Opening(head) + more, scopes);
      CodeRestores(before, scopes);
      DoConcat(Opening(head), more, scopes);
      OpeningOpens(head, scopes);
      ScopesAtPoint(levels[1..], here, scopes + [ScopeOf(head)]);
      ConcatAssociative(scopes, [ScopeOf(head)], Enclosing(levels[1..]));
    }
  }

  /**
    Read from the beginning of a file: when the lines outside all else arms spell properly braced
    code up to some point, the stack is the chain of scopes that enclose that point.
   */
  lemma StackIsEnclosingScopes(lines: seq<Line>, levels: seq<(Code, Head)>, here: Code)
    ensures WellNested(lines) && Heard(OutsideElse(lines, []), []) == TextTo(levels, here) ==>
              var end := Run(lines, State([], []));
              Outline(end.stack) == Enclosing(levels) && end.checkpoints == []
  {
    hide Run, Heard, TextTo, OutsideElse, Effects;
    if WellNested(lines) && Heard(OutsideElse(lines, []), []) == TextTo(levels, here) {
      ArmsAreErased(lines, State([], []));
      EffectsAreEvents(OutsideElse(lines, []), []);
      ScopesAtPoint(levels, here, []);
      assert Outline([]) == [] && [] + Enclosing(levels) == Enclosing(levels);
    }
  }

  /** The same for the plain text of the lines, when no class head stands behind an open parenthesis. */
  lemma StackIsEnclosingScopesOfText(lines: seq<Line>, levels: seq<(Code, Head)>, here: Code)
    ensures WellNested(lines) && AllHeard(OutsideElse(lines, []), [])
            && AllEvents(OutsideElse(lines, [])) == TextTo(levels, here) ==>
              var end := Run(lines, State([], []));
              Outline(end.stack) == Enclosing(levels) && end.checkpoints == []
  {
    hide Run, Heard, AllHeard, AllEvents, TextTo, OutsideElse;
    AllHeardAreEvents(OutsideElse(lines, []), []);
    StackIsEnclosingScopes(lines, levels, here);
  }
}
