/**
  The template argument lists that the forward matcher accepts, told by the characters alone.

  Whether a `<` opens a list and a `>` closes one is decided by what stands in front of it on its
  line: not behind another `<`, not behind a `-`, and not behind the word `operator`.
 */
module TemplateText {
  import opened Blanks
  import opened BracketWords
  import opened ExpressionMatcher
  import opened Sequences
  import opened TemplateGrammar
  import opened TextOfLines

  // ----- The word operator -----

  /** The text ends in the word `operator` and blanks. */
  ghost predicate AfterOperator(s: string) {
    exists k: nat, m: nat :: OperatorAt(s, k, m)
  }

  /** The word stands at `k`, not as the end of a longer word, and only blanks follow from `m` on. */
  ghost predicate OperatorAt(s: string, k: nat, m: nat) {
    && m == k + 8 <= |s| && s[k..m] == "operator" && (k == 0 || !IsWord(s[k - 1]))
    && AllBlank(s[m..])
  }

  lemma OperatorIsFound(s: string) returns (k: nat, m: nat)
    requires EndsInOperator(s)
    ensures OperatorAt(s, k, m)
  {
    var t := TrimRight(s);
    k, m := |t| - 8, |t|;
    TrimmedIsBlank(s);
    hide TrimRight, AllBlank;
    assert s[|t| - 8..|t|] == t[|t| - 8..];
  }

  lemma FoundIsOperator(s: string, k: nat, m: nat)
    requires OperatorAt(s, k, m)
    ensures EndsInOperator(s)
  {
    hide TrimRight, AllBlank;
    assert s[m - 1] == s[k..m][7] == "operator"[7];
    TrimStopsAt(s, m);
    assert s[..m][m - 8..] == s[k..m];
  }

  lemma EndsInOperatorIff(s: string)
    ensures EndsInOperator(s) <==> AfterOperator(s)
  {
    hide EndsInOperator, OperatorAt;
    if EndsInOperator(s) {
      var k, m := OperatorIsFound(s);
    }
    if k: nat, m: nat :| OperatorAt(s, k, m) {
      FoundIsOperator(s, k, m);
    }
  }

  lemma NoOperatorInNothing()
    ensures !AfterOperator([])
  {
  }

  // ----- Characters with what stands in front of them -----

  datatype Mark = Mark(front: string, c: char)

  predicate Behind(m: Mark, c: char) {
    m.front != [] && m.front[|m.front| - 1] == c
  }

  ghost predicate OpensList(m: Mark) {
    m.c == '<' && !Behind(m, '<') && !AfterOperator(m.front)
  }

  /** The second character of a left shift. */
  predicate Shifts(m: Mark) {
    m.c == '<' && Behind(m, '<')
  }

  /** The word `operator` is looked for in front of the character before. */
  ghost predicate ClosesList(m: Mark) {
    m.c == '>' && !Behind(m, '-') && (m.front != [] ==> !AfterOperator(m.front[..|m.front| - 1]))
  }

  predicate IsBracket(m: Mark) {
    Opener(m.c) || Closer(m.c)
  }

  ghost predicate IsPlain(m: Mark) {
    !IsBracket(m) && m.c != ';' && !OpensList(m) && !Shifts(m) && !ClosesList(m)
  }

  function TokenOf(m: Mark): Token {
    ForwardToken(m.front + [m.c], |m.front|)
  }

  lemma TokenKinds(m: Mark)
    ensures TokenOf(m) == AngleIn <==> OpensList(m)
    ensures TokenOf(m) == AngleOut <==> ClosesList(m)
    ensures TokenOf(m) == Token.Shift <==> Shifts(m)
    ensures TokenOf(m) == Semicolon <==> m.c == ';'
    ensures TokenOf(m).Bracket? <==> IsBracket(m)
    ensures TokenOf(m).Bracket? ==> TokenOf(m).c == m.c
    ensures TokenOf(m) == Other <==> IsPlain(m)
  {
    hide EndsInOperator, AfterOperator;
    var line, i := m.front + [m.c], |m.front|;
    assert line[..i] == m.front;
    EndsInOperatorIff(m.front);
    NoOperatorInNothing();
    if i > 0 {
      assert line[..i - 1] == m.front[..i - 1] && line[i - 1] == m.front[i - 1];
      EndsInOperatorIff(m.front[..i - 1]);
    }
  }

  function TokensOf(ms: seq<Mark>): (r: seq<Token>)
    ensures |r| == |ms| && forall k :: 0 <= k < |ms| ==> r[k] == TokenOf(ms[k])
  {
    seq(|ms|, k requires 0 <= k < |ms| => TokenOf(ms[k]))
  }

  function Letters(ms: seq<Mark>): (r: string)
    ensures |r| == |ms| && forall k :: 0 <= k < |ms| ==> r[k] == ms[k].c
  {
    seq(|ms|, k requires 0 <= k < |ms| => ms[k].c)
  }

  function LineMarks(line: string): (r: seq<Mark>)
    ensures |r| == |line| && forall i :: 0 <= i < |line| ==> r[i] == Mark(line[..i], line[i])
  {
    seq(|line|, i requires 0 <= i < |line| => Mark(line[..i], line[i]))
  }

  function FileMarks(lines: seq<string>): seq<Mark> {
    if lines == [] then [] else FileMarks(lines[..|lines| - 1]) + LineMarks(lines[|lines| - 1])
  }

  lemma TokenOfLine(line: string, i: nat)
    requires i < |line|
    ensures TokenOf(Mark(line[..i], line[i])) == ForwardToken(line, i)
  {
    var short := line[..i] + [line[i]];
    assert short[..i] == line[..i];
    if i > 0 {
      assert short[..i - 1] == line[..i - 1] && short[i - 1] == line[i - 1];
    }
    hide EndsInOperator;
  }

  lemma {:induction false} FileTokensAre(lines: seq<string>)
    ensures FileTokens(lines) == TokensOf(FileMarks(lines))
  {
    hide TokenOf, ForwardToken;
    if lines != [] {
      var init, line := lines[..|lines| - 1], lines[|lines| - 1];
      FileTokensAre(init);
      forall i | 0 <= i < |line|
        ensures LineTokens(line)[i] == TokensOf(LineMarks(line))[i]
      {
        TokenOfLine(line, i);
      }
      assert LineTokens(line) == TokensOf(LineMarks(line));
      hide LineTokens, TokensOf, LineMarks;
      TokensConcat(FileMarks(init), LineMarks(line));
    }
  }

  lemma {:induction false} FileLetters(lines: seq<string>)
    ensures Letters(FileMarks(lines)) == Flatten(lines)
  {
    if lines != [] {
      FileLetters(lines[..|lines| - 1]);
    }
  }

  // ----- Groups do not depend on what is no bracket -----

  ghost predicate SameBrackets(s: string, t: string) {
    |s| == |t| && forall k :: 0 <= k < |s| ==>
      s[k] == t[k] || (!Opener(s[k]) && !Closer(s[k]) && !Opener(t[k]) && !Closer(t[k]))
  }

  lemma {:induction false} SameScan(s: string, t: string, st: seq<char>, i: nat)
    requires SameBrackets(s, t) && st != [] && i <= |s|
    ensures Scan(st, s, i) == Scan(st, t, i)
    decreases |s| - i
  {
    if i < |s| {
      assert Step(st, s[i]) == Step(st, t[i]);
      if Step(st, s[i]).Next? {
        SameScan(s, t, Step(st, s[i]).stack, i + 1);
      }
    }
  }

  lemma SameGroup(s: string, t: string)
    requires SameBrackets(s, t)
    ensures Group(s) <==> Group(t)
  {
    if s != [] && Opener(s[0]) {
      assert t[0] == s[0];
      SameScan(s, t, [s[0]], 1);
      ScanFindsTheGroup(s, 0, |s|);
      ScanFindsTheGroup(t, 0, |t|);
      assert s[0..|s|] == s && t[0..|t|] == t;
    }
  }

  lemma BracketsAreLetters(ms: seq<Mark>)
    ensures Group(Brackets(TokensOf(ms))) <==> Group(Letters(ms))
  {
    forall k | 0 <= k < |ms|
      ensures TokenOf(ms[k]).Bracket? <==> IsBracket(ms[k])
      ensures TokenOf(ms[k]).Bracket? ==> TokenOf(ms[k]).c == ms[k].c
    {
      TokenKinds(ms[k]);
    }
    hide TokenOf;
    SameGroup(Brackets(TokensOf(ms)), Letters(ms));
  }

  // ----- The grammar -----

  datatype List =
    | NoMore
    | Plain(m: Mark, rest: List)
    | Bracketed(group: seq<Mark>, rest: List)
    | Nested(open: Mark, inner: List, close: Mark, rest: List)

  ghost predicate WellFormedList(l: List) {
    match l
    case NoMore => true
    case Plain(m, rest) => IsPlain(m) && WellFormedList(rest)
    case Bracketed(group, rest) => Group(Letters(group)) && WellFormedList(rest)
    case Nested(open, inner, close, rest) =>
      && OpensList(open) && WellFormedList(inner)
      && (ClosesList(close) || Shifts(close)) && WellFormedList(rest)
  }

  function Write(l: List): seq<Mark> {
    match l
    case NoMore => []
    case Plain(m, rest) => [m] + Write(rest)
    case Bracketed(group, rest) => group + Write(rest)
    case Nested(open, inner, close, rest) => [open] + (Write(inner) + ([close] + Write(rest)))
  }

  ghost predicate IsList(ms: seq<Mark>) {
    exists l :: WellFormedList(l) && Write(l) == ms
  }

  /** A `<` that opens a list, the list, and a `>` that closes it. */
  ghost predicate ListText(ms: seq<Mark>) {
    |ms| >= 2 && OpensList(ms[0]) && ClosesList(ms[|ms| - 1]) && IsList(ms[1..|ms| - 1])
  }

  // ----- Both grammars agree -----

  lemma TokensConcat(a: seq<Mark>, b: seq<Mark>)
    ensures TokensOf(a + b) == TokensOf(a) + TokensOf(b)
  {
    hide TokenOf;
  }

  lemma TokensOne(m: Mark)
    ensures TokensOf([m]) == [TokenOf(m)]
  {
    hide TokenOf;
  }

  function ToArgs(l: List): Args {
    match l
    case NoMore => Args.NoMore
    case Plain(_, rest) => Word(ToArgs(rest))
    case Bracketed(group, rest) => Grouped(TokensOf(group), ToArgs(rest))
    case Nested(_, inner, close, rest) => Angled(ToArgs(inner), Shifts(close), ToArgs(rest))
  }

  lemma {:induction false} ListIsArgs(l: List)
    requires WellFormedList(l)
    ensures WellFormedArgs(ToArgs(l)) && Spell(ToArgs(l)) == TokensOf(Write(l))
  {
    hide TokensOf, OpensList, ClosesList, IsPlain, Shifts;
    match l
    case NoMore =>
      assert TokensOf([]) == [];
    case Plain(m, rest) =>
      ListIsArgs(rest);
      TokensConcat([m], Write(rest));
      TokensOne(m);
      TokenKinds(m);
    case Bracketed(group, rest) =>
      ListIsArgs(rest);
      TokensConcat(group, Write(rest));
      BracketsAreLetters(group);
    case Nested(open, inner, close, rest) =>
      ListIsArgs(inner);
      ListIsArgs(rest);
      TokensConcat([open], Write(inner) + ([close] + Write(rest)));
      TokensConcat(Write(inner), [close] + Write(rest));
      TokensConcat([close], Write(rest));
      TokensOne(open);
      TokensOne(close);
      TokenKinds(open);
      TokenKinds(close);
  }

  lemma TokensSplit(ms: seq<Mark>, a: seq<Token>, b: seq<Token>)
    requires TokensOf(ms) == a + b
    ensures |a| <= |ms| && TokensOf(ms[..|a|]) == a && TokensOf(ms[|a|..]) == b
    ensures ms == ms[..|a|] + ms[|a|..]
  {
    hide TokenOf;
    assert |TokensOf(ms)| == |a + b|;
    assert ms == ms[..|a|] + ms[|a|..];
    TokensConcat(ms[..|a|], ms[|a|..]);
    ConcatSplit(TokensOf(ms[..|a|]), TokensOf(ms[|a|..]), a, b);
  }

  lemma TokenAlone(ms: seq<Mark>, t: Token)
    requires TokensOf(ms) == [t]
    ensures |ms| == 1 && ms == [ms[0]] && TokenOf(ms[0]) == t
  {
    hide TokenOf;
    assert |TokensOf(ms)| == 1;
  }

  lemma {:induction false} ArgsAreList(a: Args, ms: seq<Mark>) returns (l: List)
    requires WellFormedArgs(a) && Spell(a) == TokensOf(ms)
    ensures WellFormedList(l) && Write(l) == ms
    decreases a
  {
    hide TokensOf, TokenOf, OpensList, ClosesList, IsPlain, Shifts;
    match a
    case NoMore =>
      l := List.NoMore;
      assert |TokensOf(ms)| == 0;
    case Word(rest) =>
      TokensSplit(ms, [Other], Spell(rest));
      TokenAlone(ms[..1], Other);
      TokenKinds(ms[0]);
      var r := ArgsAreList(rest, ms[1..]);
      l := Plain(ms[0], r);
    case Grouped(group, rest) =>
      TokensSplit(ms, group, Spell(rest));
      BracketsAreLetters(ms[..|group|]);
      var r := ArgsAreList(rest, ms[|group|..]);
      l := Bracketed(ms[..|group|], r);
    case Angled(inner, shifted, rest) =>
      l := AngledIsList(a, ms);
  }

  lemma TokensSlice(ms: seq<Mark>, lo: nat, hi: nat)
    requires lo <= hi <= |ms|
    ensures TokensOf(ms)[lo..hi] == TokensOf(ms[lo..hi])
  {
    hide TokenOf;
  }

  /** The pieces of an angled list. */
  lemma AngledPieces(a: Args, ms: seq<Mark>, k: nat)
    requires a.Angled? && Spell(a) == TokensOf(ms) && k == 1 + |Spell(a.inner)|
    ensures 1 <= k < |ms| && TokenOf(ms[0]) == AngleIn && TokensOf(ms[1..k]) == Spell(a.inner)
    ensures TokenOf(ms[k]) == (if a.shifted then Token.Shift else AngleOut) && TokensOf(ms[k + 1..]) == Spell(a.rest)
  {
    hide TokenOf;
    AngledSlices(a, TokensOf(ms), 0, k, |ms|);
    TokensSlice(ms, 1, k);
    TokensSlice(ms, k + 1, |ms|);
    assert ms[k + 1..|ms|] == ms[k + 1..];
  }

  lemma {:induction false} AngledIsList(a: Args, ms: seq<Mark>) returns (l: List)
    requires a.Angled? && WellFormedArgs(a) && Spell(a) == TokensOf(ms)
    ensures WellFormedList(l) && Write(l) == ms
    decreases a, 0
  {
    hide TokensOf, TokenOf, OpensList, ClosesList, IsPlain, Shifts, Spell;
    var k := 1 + |Spell(a.inner)|;
    AngledPieces(a, ms, k);
    TokenKinds(ms[0]);
    TokenKinds(ms[k]);
    var inner := ArgsAreList(a.inner, ms[1..k]);
    var rest := ArgsAreList(a.rest, ms[k + 1..]);
    l := Nested(ms[0], inner, ms[k], rest);
    assert [ms[0]] + (ms[1..k] + ([ms[k]] + ms[k + 1..])) == ms;
  }

  lemma TemplateIsText(ms: seq<Mark>)
    ensures TemplateGroup(TokensOf(ms)) <==> ListText(ms)
  {
    hide TokenOf, TokensOf;
    if |ms| >= 2 {
      var inside, tokens := ms[1..|ms| - 1], TokensOf(ms);
      TokenKinds(ms[0]);
      TokenKinds(ms[|ms| - 1]);
      TokensSlice(ms, 1, |ms| - 1);
      assert tokens[0] == TokenOf(ms[0]) && tokens[|ms| - 1] == TokenOf(ms[|ms| - 1]);
      if TemplateGroup(tokens) {
        var a :| WellFormedArgs(a) && Spell(a) == tokens[1..|ms| - 1];
        var l := ArgsAreList(a, inside);
      }
      if ListText(ms) {
        var l :| WellFormedList(l) && Write(l) == inside;
        ListIsArgs(l);
        assert ArgumentList(tokens[1..|ms| - 1]);
      }
    }
  }

  // ----- The results -----

  lemma OpensIsAngle(line: string, p: nat)
    requires p < |line| && OpensList(Mark(line[..p], line[p]))
    ensures ForwardToken(line, p) == AngleIn
  {
    hide OpensList, ForwardToken, TokenOf;
    TokenKinds(Mark(line[..p], line[p]));
    TokenOfLine(line, p);
  }

  lemma {:induction false} MarkInFile(lines: seq<string>, n: nat, i: nat)
    requires n < |lines| && i < |lines[n]|
    ensures Offset(lines, n) + i < |FileMarks(lines)|
    ensures FileMarks(lines)[Offset(lines, n) + i] == Mark(lines[n][..i], lines[n][i])
  {
    var init, last := lines[..|lines| - 1], |lines| - 1;
    FileLetters(init);
    FlatLength(init);
    OffsetOfPrefix(lines, n);
    OffsetOfPrefix(lines, last);
    if n < last {
      MarkInFile(init, n, i);
    }
  }

  /**
    From a `<` that opens a list, `Close` returns a position exactly when the characters up to it
    are that list: told from the text alone, for all lines.
   */
  lemma CloseIffListText(lines: seq<string>, n: nat, p: nat, n': nat, q: nat)
    requires n < |lines| && p < |lines[n]| && OpensList(Mark(lines[n][..p], lines[n][p]))
    requires p + 1 < |lines[n]| ==> lines[n][p + 1] != '<' && lines[n][p + 1] != '='
    requires n' < |lines| && 0 < q <= |lines[n']|
    ensures Offset(lines, n') + q <= |FileMarks(lines)|
    ensures var b, e := Offset(lines, n) + p, Offset(lines, n') + q;
            Close(lines, n, p) == Place(lines[n'], n', q) <==> b < e && ListText(FileMarks(lines)[b..e])
  {
    hide OpensList, ForwardToken, TokenOf, TokensOf, Close, TemplateGroup, ListText, FileMarks, FileTokens, Offset;
    OpensIsAngle(lines[n], p);
    FileTokensAre(lines);
    CloseIffTemplateGroup(lines, n, p, n', q);
    var b, e := Offset(lines, n) + p, Offset(lines, n') + q;
    if b < e {
      TokensSlice(FileMarks(lines), b, e);
      TemplateIsText(FileMarks(lines)[b..e]);
    }
  }

  lemma AngleIsLess(line: string, p: nat)
    requires p < |line| && ForwardToken(line, p) == AngleIn
    ensures line[p] == '<'
  {
    hide EndsInOperator;
  }

  lemma ClosePlace(lines: seq<string>, n: nat, p: nat)
    requires n < |lines| && p < |lines[n]| && OpensList(Mark(lines[n][..p], lines[n][p]))
    ensures var r := Close(lines, n, p);
            r.pos >= 0 ==>
              && (p + 1 < |lines[n]| ==> lines[n][p + 1] != '<' && lines[n][p + 1] != '=')
              && r.linenum < |lines| && 0 < r.pos <= |lines[r.linenum]|
              && r == Place(lines[r.linenum], r.linenum, r.pos)
  {
    hide OpensList, ForwardToken, Moves, FileTokens, Offset, ForwardFrom;
    OpensIsAngle(lines[n], p);
    assert lines[n][p] == '<' by {
      AngleIsLess(lines[n], p);
    }
    if !LessOrShift(lines[n], p) {
      AngleStarts(lines, n, p);
      FileIsTokenized(lines);
      FromIsMoves(lines, FileTokens(lines), n, p + 1, ['<']);
    }
  }

  lemma ListTextEnds(ms: seq<Mark>, b: nat, e: nat)
    requires b < e <= |ms| && ListText(ms[b..e])
    ensures ClosesList(ms[e - 1])
  {
    hide ClosesList, IsList, OpensList;
    assert ms[b..e][e - b - 1] == ms[e - 1];
  }

  /** What closes a list is a `>` that is not part of an arrow. */
  lemma ArrowClosesNothing(lines: seq<string>, n: nat, p: nat)
    requires n < |lines| && p < |lines[n]| && OpensList(Mark(lines[n][..p], lines[n][p]))
    ensures var r := Close(lines, n, p);
            r.pos >= 0 ==>
              && r.linenum < |lines| && 0 < r.pos <= |lines[r.linenum]| && lines[r.linenum][r.pos - 1] == '>'
              && (r.pos >= 2 ==> lines[r.linenum][r.pos - 2] != '-')
  {
    hide OpensList, Close, ListText, FileMarks, Offset;
    var r := Close(lines, n, p);
    ClosePlace(lines, n, p);
    if r.pos >= 0 {
      var line, i := lines[r.linenum], r.pos - 1;
      CloseIffListText(lines, n, p, r.linenum, r.pos);
      MarkInFile(lines, r.linenum, i);
      var e := Offset(lines, r.linenum) + r.pos;
      ListTextEnds(FileMarks(lines), Offset(lines, n) + p, e);
      assert FileMarks(lines)[e - 1] == Mark(line[..i], line[i]);
      assert i > 0 ==> line[..i][i - 1] == line[i - 1];
    }
  }

  /** From `<<` and `<=`, and from anything that is no bracket or `<`, nothing is found. */
  lemma CloseRefuses(lines: seq<string>, n: nat, p: nat)
    requires n < |lines| && p < |lines[n]|
    requires || lines[n][p] !in "([{<"
             || (lines[n][p] == '<' && p + 1 < |lines[n]| && lines[n][p + 1] in "<=")
    ensures Close(lines, n, p) == Place(lines[n], |lines|, -1)
  {
    hide ForwardFrom;
    var openers, signs := "([{<", "<=";
    assert openers[0] == '(' && openers[1] == '[' && openers[2] == '{' && openers[3] == '<';
    assert signs[0] == '<' && signs[1] == '=';
  }

  // ----- Lines without the word -----

  predicate SpellsOperator(line: string, k: nat) {
    k + 8 <= |line| && line[k..k + 8] == "operator"
  }

  ghost predicate MentionsOperator(line: string) {
    exists k: nat :: SpellsOperator(line, k)
  }

  /** On a line without the word, the character in front decides alone. */
  lemma FrontDecides(line: string, i: nat)
    requires i < |line| && !MentionsOperator(line)
    ensures var m := Mark(line[..i], line[i]);
            && (OpensList(m) <==> line[i] == '<' && (i == 0 || line[i - 1] != '<'))
            && (ClosesList(m) <==> line[i] == '>' && (i == 0 || line[i - 1] != '-'))
  {
    NoOperatorInFront(line, i);
    if i > 0 {
      NoOperatorInFront(line, i - 1);
      assert line[..i][..i - 1] == line[..i - 1];
    }
  }

  lemma NoOperatorInFront(line: string, i: nat)
    requires i <= |line| && !MentionsOperator(line)
    ensures !AfterOperator(line[..i])
  {
    if k: nat, m: nat :| OperatorAt(line[..i], k, m) {
      assert line[k..k + 8] == line[..i][k..m];
      assert SpellsOperator(line, k);
    }
  }
}
