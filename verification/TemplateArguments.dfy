/** What it means that the forward matcher closes a template argument list. */
module TemplateArguments {
  import opened BracketWords
  import opened ExpressionMatcher
  import opened Sequences
  import opened TextOfLines
  import opened ForwardMatching

  /**
    The plain machine from `i` to `e`, provided it only ever moves on and never meets a `;` with
    nothing but the bottom entry on its stack.
   */
  function Walk(st: seq<char>, s: string, i: nat, e: nat): (r: seq<char>)
    requires i <= e <= |s|
    decreases e - i
  {
    if st == [] || i == e then st
    else if s[i] == ';' && |st| == 1 then []
    else match Step(st, s[i])
      case Next(st') => Walk(st', s, i + 1, e)
      case Done => []
      case Bad => []
  }

  lemma {:induction false} WalkCompose(st: seq<char>, s: string, i: nat, m: nat, e: nat)
    requires i <= m <= e <= |s|
    ensures Walk(Walk(st, s, i, m), s, m, e) == Walk(st, s, i, e)
    decreases m - i
  {
    if st != [] && i < m && Step(st, s[i]).Next? {
      WalkCompose(Step(st, s[i]).stack, s, i + 1, m, e);
    }
  }

  lemma {:induction false} WalkSlice(st: seq<char>, s: string, lo: nat, hi: nat, i: nat, e: nat)
    requires lo <= hi <= |s| && i <= e <= hi - lo
    ensures Walk(st, s[lo..hi], i, e) == Walk(st, s, lo + i, lo + e)
    decreases e - i
  {
    if st != [] && i < e && Step(st, s[lo + i]).Next? {
      WalkSlice(Step(st, s[lo + i]).stack, s, lo, hi, i + 1, e);
    }
  }

  lemma {:induction false} WalkIsPending(st: seq<char>, s: string, i: nat, e: nat)
    requires i <= e <= |s| && Walk(st, s, i, e) != []
    ensures st != [] && Scan(st, s[..e], i) == Pending(Walk(st, s, i, e))
    decreases e - i
  {
    if i < e {
      WalkIsPending(Step(st, s[i]).stack, s, i + 1, e);
    }
  }

  /** A walk from a lone bottom entry back to it runs over a balanced text with no `;` outside brackets. */
  lemma {:induction false} WalkIsBalanced(base: char, s: string, i: nat, e: nat)
    requires i <= e <= |s| && Walk([base], s, i, e) == [base]
    ensures Balanced(s[i..e])
    ensures forall k :: i <= k < e && s[k] == ';' ==> !Balanced(s[i..k])
  {
    PendingFrom(base, s, i, e);
    ScanReturnsIffBalanced(base, s[i..e]);
    forall k | i <= k < e && s[k] == ';'
      ensures !Balanced(s[i..k])
    {
      WalkCompose([base], s, i, k, e);
      PendingFrom(base, s, i, k);
      ScanReturnsIffBalanced(base, s[i..k]);
    }
  }

  lemma {:induction false} PendingFrom(base: char, s: string, i: nat, e: nat)
    requires i <= e <= |s| && Walk([base], s, i, e) != []
    ensures Scan([base], s[i..e], 0) == Pending(Walk([base], s, i, e))
  {
    WalkSlice([base], s, i, e, 0, e - i);
    WalkIsPending([base], s[i..e], 0, e - i);
    assert s[i..e][..e - i] == s[i..e];
  }

  lemma {:induction false} AngleScanWalks(line: string, i: nat, stack: seq<char>)
    requires i <= |line| && stack != [] && stack[0] == '<'
    ensures match ForwardScan(line, i, stack)
            case Found(e) => i < e <= |line| && line[e - 1] == '>' && Walk(Erase(stack), line, i, e - 1) == ['<']
            case Failed => true
            case Continue(st) => st != [] && st[0] == '<' && Walk(Erase(stack), line, i, |line|) == Erase(st)
    decreases |line| - i
  {
    if i < |line| {
      ForwardStepSimulates(line, i, stack);
      var r := ForwardStep(line, i, stack);
      if r.Continue? {
        AngleScanWalks(line, i + 1, r.stack);
      }
    }
  }

  lemma {:induction false} AngleSliceWalks(text: string, lo: nat, line: string, i: nat, stack: seq<char>)
    requires lo + |line| <= |text| && text[lo..lo + |line|] == line
    requires i <= |line| && stack != [] && stack[0] == '<'
    ensures match ForwardScan(line, i, stack)
            case Found(e) =>
              i < e <= |line| && text[lo + e - 1] == '>' && Walk(Erase(stack), text, lo + i, lo + e - 1) == ['<']
            case Failed => true
            case Continue(st) =>
              st != [] && st[0] == '<' && Walk(Erase(stack), text, lo + i, lo + |line|) == Erase(st)
  {
    hide ForwardScan, Walk;
    AngleScanWalks(line, i, stack);
    match ForwardScan(line, i, stack)
    case Found(e) =>
      WalkSlice(Erase(stack), text, lo, lo + |line|, i, e - 1);
      assert text[lo + e - 1] == line[e - 1];
    case Failed =>
    case Continue(st) =>
      WalkSlice(Erase(stack), text, lo, lo + |line|, i, |line|);
  }

  /** A successful search ended at a `>` to which the machine walked from `b` with stack `st`. */
  ghost predicate WalkedTo(lines: seq<string>, text: string, r: Place, st: seq<char>, b: nat) {
    && r.linenum < |lines| && 0 < r.pos <= |lines[r.linenum]|
    && var e := Offset(lines, r.linenum) + r.pos - 1;
       b <= e < |text| && text[e] == '>' && Walk(st, text, b, e) == ['<']
  }

  lemma {:induction false} AngleFromWalks(lines: seq<string>, text: string, n: nat, i: nat, stack: seq<char>)
    requires LaidOut(lines, text)
    requires n < |lines| && i <= |lines[n]| && stack != [] && stack[0] == '<'
    ensures var r := ForwardFrom(lines, n, i, stack);
            r.pos >= 0 ==> WalkedTo(lines, text, r, Erase(stack), Offset(lines, n) + i)
    decreases |lines| - n
  {
    hide ForwardScan, Walk;
    var lo := Offset(lines, n);
    assert LineAt(lines, text, n) && Offset(lines, n + 1) == lo + |lines[n]|;
    AngleSliceWalks(text, lo, lines[n], i, stack);
    match ForwardScan(lines[n], i, stack)
    case Found(e) =>
    case Failed =>
    case Continue(st) =>
      if n + 1 < |lines| {
        AngleFromWalks(lines, text, n + 1, 0, st);
        var r := ForwardFrom(lines, n + 1, 0, st);
        if r.pos >= 0 {
          WalkCompose(Erase(stack), text, lo + i, lo + |lines[n]|, Offset(lines, r.linenum) + r.pos - 1);
        }
      }
  }

  lemma CloseStartsAngle(lines: seq<string>, n: nat, p: nat)
    requires n < |lines| && p < |lines[n]| && lines[n][p] == '<'
    requires p > 0 ==> lines[n][p - 1] != '<' && !EndsInOperator(lines[n][..p])
    requires !LessOrShift(lines[n], p)
    ensures Close(lines, n, p) == ForwardFrom(lines, n, p + 1, ['<'])
  {
    assert [] + ['<'] == ['<'];
    assert ForwardScan(lines[n], p, []) == ForwardScan(lines[n], p + 1, ['<']);
  }

  /**
    Closing a `<` that is neither the second half of a shift nor part of `operator<`: the search
    ends behind a `>`, the brackets between are balanced, and no `;` stands outside of them.
   */
  lemma CloseTemplateArguments(lines: seq<string>, n: nat, p: nat)
    requires n < |lines| && p < |lines[n]| && lines[n][p] == '<'
    requires p > 0 ==> lines[n][p - 1] != '<' && !EndsInOperator(lines[n][..p])
    requires Close(lines, n, p).pos >= 0
    ensures var r := Close(lines, n, p);
            && r.linenum < |lines| && 0 < r.pos <= |lines[r.linenum]|
            && var text, b, e := Flatten(lines), Offset(lines, n) + p + 1, Offset(lines, r.linenum) + r.pos - 1;
               && b <= e < |text| && text[e] == '>'
               && Balanced(text[b..e])
               && forall k :: b <= k < e && text[k] == ';' ==> !Balanced(text[b..k])
  {
    hide Walk;
    CloseStartsAngle(lines, n, p);
    FlatLaidOut(lines);
    AngleFromWalks(lines, Flatten(lines), n, p + 1, ['<']);
    var r := Close(lines, n, p);
    assert WalkedTo(lines, Flatten(lines), r, ['<'], Offset(lines, n) + p + 1);
    WalkIsBalanced('<', Flatten(lines), Offset(lines, n) + p + 1, Offset(lines, r.linenum) + r.pos - 1);
  }
}
