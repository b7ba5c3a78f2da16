/** Tokens read from the other end: without shifts, the grammar of template argument lists is its own mirror image. */
module TemplateMirror {
  import opened BracketWords
  import opened ExpressionMatcher
  import opened ForwardMatching
  import opened Sequences
  import opened TemplateGrammar

  // ----- Turning tokens around -----

  function MirrorToken(t: Token): Token {
    match t
    case Bracket(c) => Bracket(Flip(c))
    case AngleIn => AngleOut
    case AngleOut => AngleIn
    case _ => t
  }

  function MirrorTokens(ts: seq<Token>): (r: seq<Token>)
    ensures |r| == |ts| && forall k :: 0 <= k < |ts| ==> r[k] == MirrorToken(ts[|ts| - 1 - k])
  {
    seq(|ts|, k requires 0 <= k < |ts| => MirrorToken(ts[|ts| - 1 - k]))
  }

  lemma MirrorTokensConcat(a: seq<Token>, b: seq<Token>)
    ensures MirrorTokens(a + b) == MirrorTokens(b) + MirrorTokens(a)
  {
    hide MirrorToken;
  }

  lemma MirrorTokensOne(t: Token)
    ensures MirrorTokens([t]) == [MirrorToken(t)]
  {
    hide MirrorToken;
  }

  lemma MirrorTokensTwice(ts: seq<Token>)
    ensures MirrorTokens(MirrorTokens(ts)) == ts
  {
  }

  lemma MirrorBrackets(ts: seq<Token>)
    ensures Brackets(MirrorTokens(ts)) == Mirror(Brackets(ts))
  {
    forall k | 0 <= k < |ts|
      ensures BracketChar(MirrorToken(ts[k])) == Flip(BracketChar(ts[k]))
    {
    }
    hide MirrorToken, BracketChar, Flip;
    var a, b := Brackets(MirrorTokens(ts)), Mirror(Brackets(ts));
    forall k | 0 <= k < |ts|
      ensures a[k] == b[k]
    {
    }
  }

  lemma MirrorTokensSlice(ts: seq<Token>, b: nat)
    requires b <= |ts|
    ensures MirrorTokens(ts)[..|ts| - b] == MirrorTokens(ts[b..])
  {
    hide MirrorToken;
  }

  // ----- The grammar is its own mirror image -----

  function Append(a: Args, b: Args): Args {
    match a
    case NoMore => b
    case Word(rest) => Word(Append(rest, b))
    case Grouped(group, rest) => Grouped(group, Append(rest, b))
    case Angled(inner, shifted, rest) => Angled(inner, shifted, Append(rest, b))
  }

  lemma {:induction false} SpellAppend(a: Args, b: Args)
    requires WellFormedArgs(a) && WellFormedArgs(b)
    ensures WellFormedArgs(Append(a, b)) && Spell(Append(a, b)) == Spell(a) + Spell(b)
  {
    match a
    case NoMore =>
    case Word(rest) =>
      SpellAppend(rest, b);
      ConcatAssociative([Other], Spell(rest), Spell(b));
    case Grouped(group, rest) =>
      SpellAppend(rest, b);
      ConcatAssociative(group, Spell(rest), Spell(b));
    case Angled(inner, shifted, rest) =>
      SpellAppend(rest, b);
      ConcatInto([AngleIn], Spell(inner), [if shifted then Token.Shift else AngleOut], Spell(rest), Spell(b));
  }

  /** No angle of the list is taken back as a shift. */
  predicate NoShifts(a: Args) {
    match a
    case NoMore => true
    case Word(rest) => NoShifts(rest)
    case Grouped(_, rest) => NoShifts(rest)
    case Angled(inner, shifted, rest) => !shifted && NoShifts(inner) && NoShifts(rest)
  }

  lemma {:induction false} SpellsNoShift(a: Args)
    requires Token.Shift !in Spell(a)
    ensures NoShifts(a)
  {
    match a
    case NoMore =>
    case Word(rest) => SpellsNoShift(rest);
    case Grouped(_, rest) => SpellsNoShift(rest);
    case Angled(inner, shifted, rest) =>
      SpellsNoShift(inner);
      SpellsNoShift(rest);
  }

  function MirrorArgs(a: Args): Args {
    match a
    case NoMore => Args.NoMore
    case Word(rest) => Append(MirrorArgs(rest), Word(Args.NoMore))
    case Grouped(group, rest) => Append(MirrorArgs(rest), Grouped(MirrorTokens(group), Args.NoMore))
    case Angled(inner, _, rest) => Append(MirrorArgs(rest), Angled(MirrorArgs(inner), false, Args.NoMore))
  }

  lemma {:induction false} MirrorSpell(a: Args)
    requires WellFormedArgs(a) && NoShifts(a)
    ensures WellFormedArgs(MirrorArgs(a)) && Spell(MirrorArgs(a)) == MirrorTokens(Spell(a))
  {
    hide MirrorTokens;
    match a
    case NoMore =>
      assert |MirrorTokens([])| == 0;
    case Word(rest) =>
      MirrorSpell(rest);
      SpellAppend(MirrorArgs(rest), Word(Args.NoMore));
      MirrorTokensConcat([Other], Spell(rest));
      MirrorTokensOne(Other);
    case Grouped(group, rest) =>
      MirrorSpell(rest);
      MirrorBrackets(group);
      GroupMirrored(Brackets(group));
      SpellAppend(MirrorArgs(rest), Grouped(MirrorTokens(group), Args.NoMore));
      MirrorTokensConcat(group, Spell(rest));
      assert MirrorTokens(group) + [] == MirrorTokens(group);
    case Angled(inner, shifted, rest) =>
      MirrorSpell(inner);
      MirrorSpell(rest);
      SpellAppend(MirrorArgs(rest), Angled(MirrorArgs(inner), false, Args.NoMore));
      MirrorAngled(Spell(inner), Spell(rest));
  }

  lemma MirrorAngled(inner: seq<Token>, rest: seq<Token>)
    ensures MirrorTokens([AngleIn] + (inner + ([AngleOut] + rest))) ==
            MirrorTokens(rest) + ([AngleIn] + (MirrorTokens(inner) + ([AngleOut] + [])))
  {
    hide MirrorTokens;
    MirrorTokensOne(AngleIn);
    MirrorTokensOne(AngleOut);
    MirrorTokensConcat([AngleIn], inner + ([AngleOut] + rest));
    MirrorTokensConcat(inner, [AngleOut] + rest);
    MirrorTokensConcat([AngleOut], rest);
    var r, i := MirrorTokens(rest), MirrorTokens(inner);
    assert ((r + [AngleIn]) + i) + [AngleOut] == r + ([AngleIn] + (i + ([AngleOut] + [])));
  }

  lemma EnclosedIs(m: seq<Token>, inside: seq<Token>)
    requires m == ([AngleIn] + inside) + [AngleOut]
    ensures |m| >= 2 && m[0] == AngleIn && m[|m| - 1] == AngleOut && m[1..|m| - 1] == inside
  {
  }

  lemma MirrorTemplateOneWay(ts: seq<Token>)
    requires Token.Shift !in ts
    ensures TemplateGroup(ts) ==> TemplateGroup(MirrorTokens(ts))
  {
    if TemplateGroup(ts) {
      var inside, m := ts[1..|ts| - 1], MirrorTokens(ts);
      var a :| WellFormedArgs(a) && Spell(a) == inside;
      SpellsNoShift(a);
      MirrorSpell(a);
      assert ts == [AngleIn] + (inside + [AngleOut]);
      MirrorTokensConcat([AngleIn], inside + [AngleOut]);
      MirrorTokensConcat(inside, [AngleOut]);
      MirrorTokensOne(AngleIn);
      MirrorTokensOne(AngleOut);
      hide MirrorTokens, Spell, WellFormedArgs;
      EnclosedIs(m, MirrorTokens(inside));
    }
  }

  /** Without shifts, a template group read from the other end is one. */
  lemma MirrorTemplate(ts: seq<Token>)
    requires Token.Shift !in ts
    ensures TemplateGroup(ts) <==> TemplateGroup(MirrorTokens(ts))
  {
    hide TemplateGroup;
    MirrorTemplateOneWay(ts);
    MirrorTokensTwice(ts);
    assert Token.Shift !in MirrorTokens(ts);
    MirrorTemplateOneWay(MirrorTokens(ts));
  }
}
