/**
  Bracket words: the reference against which cpplint's expression matchers are judged.

  A balanced text is one that a grammar of nested groups generates (`Forest`, `Unparse`).
  A `Scan` is a plain stack machine over the six characters ( [ { ) ] }.  The two are
  independent definitions; the lemmas at the end connect them in both directions.
 */
module BracketWords {
  import opened Sequences

  predicate Opener(c: char) {
    c == '(' || c == '[' || c == '{'
  }

  predicate Closer(c: char) {
    c == ')' || c == ']' || c == '}'
  }

  /** Swaps a bracket with its partner and leaves every other character alone. */
  function Flip(c: char): char {
    match c
    case '(' => ')'
    case ')' => '('
    case '[' => ']'
    case ']' => '['
    case '{' => '}'
    case '}' => '{'
    case _ => c
  }

  // ----- The grammar -----

  datatype Forest =
    | Nil
    | Text(c: char, rest: Forest)
    | Nest(open: char, body: Forest, rest: Forest)

  predicate WellFormed(f: Forest) {
    match f
    case Nil => true
    case Text(c, rest) => !Opener(c) && !Closer(c) && WellFormed(rest)
    case Nest(open, body, rest) => Opener(open) && WellFormed(body) && WellFormed(rest)
  }

  function Unparse(f: Forest): string {
    match f
    case Nil => []
    case Text(c, rest) => [c] + Unparse(rest)
    case Nest(open, body, rest) => [open] + Unparse(body) + [Flip(open)] + Unparse(rest)
  }

  /** Every bracket in `s` is closed by its partner, properly nested. */
  ghost predicate Balanced(s: string) {
    exists f :: WellFormed(f) && Unparse(f) == s
  }

  /** `s` is one bracketed group: an opener, a balanced inside, and its partner. */
  ghost predicate Group(s: string) {
    && |s| >= 2
    && Opener(s[0])
    && s[|s| - 1] == Flip(s[0])
    && Balanced(s[1..|s| - 1])
  }

  // ----- The stack machine -----

  datatype Outcome =
    | Closed(end: nat)             // index just after the character that emptied the stack
    | Mismatch(at: nat)            // index of the first closer that does not fit
    | Pending(stack: seq<char>)    // the text ended first

  datatype Move = Next(stack: seq<char>) | Done | Bad

  /** What one character does to the stack.  A stack entry is closed by its `Flip`. */
  function Step(st: seq<char>, c: char): Move
    requires st != []
  {
    if Opener(c) then Next(st + [c])
    else if !Closer(c) then Next(st)
    else if Flip(c) != st[|st| - 1] then Bad
    else if |st| == 1 then Done
    else Next(st[..|st| - 1])
  }

  /** Runs the machine on `s[i..]`. */
  function Scan(st: seq<char>, s: string, i: nat): Outcome
    requires st != [] && i <= |s|
    decreases |s| - i
  {
    if i == |s| then Pending(st)
    else match Step(st, s[i])
      case Next(st') => Scan(st', s, i + 1)
      case Done => Closed(i + 1)
      case Bad => Mismatch(i)
  }

  lemma ScanAtEnd(st: seq<char>, s: string)
    requires st != []
    ensures Scan(st, s, |s|) == Pending(st)
  {
  }

  /** Moves an outcome on a slice of a text to where the slice sits in the text. */
  function Shift(r: Outcome, delta: nat): Outcome {
    match r
    case Closed(end) => Closed(end + delta)
    case Mismatch(at) => Mismatch(at + delta)
    case Pending(stack) => r
  }

  /** Scanning a text is scanning a slice of it and, if that does not decide, carrying on behind it. */
  lemma {:induction false} ScanSlice(st: seq<char>, s: string, lo: nat, hi: nat, i: nat)
    requires st != [] && lo <= hi <= |s| && i <= hi - lo
    ensures var r := Scan(st, s[lo..hi], i);
            && (r.Pending? ==> r.stack != [])
            && Scan(st, s, lo + i) == if r.Pending? then Scan(r.stack, s, hi) else Shift(r, lo)
    decreases hi - lo - i
  {
    if i < hi - lo {
      match Step(st, s[lo..hi][i])
      case Next(st') => ScanSlice(st', s, lo, hi, i + 1);
      case Done =>
      case Bad =>
    }
  }

  /** What the machine does with a group whose inside it gets over. */
  lemma {:induction false} ScanOverGroup(st: seq<char>, s: string, i: nat, m: nat)
    requires st != [] && i < m < |s| && Opener(s[i]) && s[m] == Flip(s[i])
    requires Scan(st + [s[i]], s, i + 1) == Scan(st + [s[i]], s, m)
    ensures Scan(st, s, i) == Scan(st, s, m + 1)
  {
    assert (st + [s[i]])[..|st|] == st;
    assert Step(st + [s[i]], s[m]) == Next(st);
  }

  lemma ScanOverText(st: seq<char>, s: string, i: nat)
    requires st != [] && i < |s| && !Opener(s[i]) && !Closer(s[i])
    ensures Scan(st, s, i) == Scan(st, s, i + 1)
  {
  }

  /** A generated text leaves the machine's stack as it was, wherever it occurs. */
  lemma {:induction false} ScanOverForest(f: Forest, st: seq<char>, s: string, i: nat)
    requires WellFormed(f) && st != []
    requires i + |Unparse(f)| <= |s| && s[i..i + |Unparse(f)|] == Unparse(f)
    ensures Scan(st, s, i) == Scan(st, s, i + |Unparse(f)|)
  {
    hide Scan;
    var end := i + |Unparse(f)|;
    match f
    case Nil =>
    case Text(c, rest) =>
      SliceHead(s, i, end);
      ConcatSplit([s[i]], s[i + 1..end], [c], Unparse(rest));
      ScanOverText(st, s, i);
      ScanOverForest(rest, st, s, i + 1);
      assert i + 1 + |Unparse(rest)| == end;
    case Nest(open, body, rest) =>
      var m := i + 1 + |Unparse(body)|;
      assert m + 1 + |Unparse(rest)| == end;
      NestSlices(open, body, rest, s, i, m);
      ScanOverForest(body, st + [open], s, i + 1);
      ScanOverGroup(st, s, i, m);
      ScanOverForest(rest, st, s, m + 1);
  }

  lemma {:induction false} NestSlices(open: char, body: Forest, rest: Forest, s: string, i: nat, m: nat)
    requires m == i + 1 + |Unparse(body)|
    requires m + 1 + |Unparse(rest)| <= |s|
    requires s[i..m + 1 + |Unparse(rest)|] == Unparse(Nest(open, body, rest))
    ensures s[i] == open && s[i + 1..m] == Unparse(body)
    ensures s[m] == Flip(open) && s[m + 1..m + 1 + |Unparse(rest)|] == Unparse(rest)
  {
    var u, v := Unparse(body), Unparse(rest);
    var end := m + 1 + |v|;
    SliceSplit(s, i, m, end);
    SliceHead(s, i, m);
    SliceHead(s, m, end);
    assert [open] + u + [Flip(open)] + v == ([open] + u) + ([Flip(open)] + v);
    ConcatSplit(s[i..m], s[m..end], [open] + u, [Flip(open)] + v);
    ConcatSplit([s[i]], s[i + 1..m], [open], u);
    ConcatSplit([s[m]], s[m + 1..end], [Flip(open)], v);
  }

  lemma {:induction false} SlicesNest(body: Forest, rest: Forest, s: string, i: nat, m: nat, end: nat)
    requires i < m < end <= |s| && s[m] == Flip(s[i])
    requires s[i + 1..m] == Unparse(body) && s[m + 1..end] == Unparse(rest)
    ensures s[i..end] == Unparse(Nest(s[i], body, rest))
  {
    var u, v := Unparse(body), Unparse(rest);
    SliceSplit(s, i, m, end);
    SliceHead(s, i, m);
    SliceHead(s, m, end);
    assert ([s[i]] + u) + ([s[m]] + v) == [s[i]] + u + [s[m]] + v;
  }

  // ----- From runs of the machine back to the grammar -----

  /**
    Recursive descent along a run.  Either some opener is never closed properly and the stack never
    shrinks back, or the machine gets over the longest balanced text at `i`, which is returned.
   */
  lemma {:induction false} Descend(st: seq<char>, s: string, i: nat) returns (stuck: bool, f: Forest, end: nat)
    requires st != [] && i <= |s|
    ensures var r := Scan(st, s, i);
            stuck ==> r.Mismatch? || (r.Pending? && |r.stack| > |st|)
    ensures !stuck ==> i <= end <= |s| && (end < |s| ==> Closer(s[end]))
    ensures !stuck ==> WellFormed(f) && Unparse(f) == s[i..end]
    ensures !stuck ==> Scan(st, s, i) == Scan(st, s, end)
    decreases |s| - i
  {
    stuck, f, end := false, Nil, i;
    if i < |s| && Opener(s[i]) {
      var body, rest;
      stuck, body, end := Descend(st + [s[i]], s, i + 1);
      if !stuck {
        var m := end;
        if m == |s| || s[m] != Flip(s[i]) {
          stuck := true;
        } else {
          ScanOverGroup(st, s, i, m);
          stuck, rest, end := Descend(st, s, m + 1);
          f := Nest(s[i], body, rest);
          if !stuck {
            SlicesNest(body, rest, s, i, m, end);
          }
        }
      }
    } else if i < |s| && !Closer(s[i]) {
      stuck, f, end := Descend(st, s, i + 1);
      f := Text(s[i], f);
      if !stuck {
        SliceHead(s, i, end);
      }
    }
  }

  lemma {:induction false} ClosedIsGroup(s: string, i: nat, e: nat)
    requires i < |s| && Opener(s[i])
    requires Scan([s[i]], s, i + 1) == Closed(e)
    ensures i < e <= |s| && Group(s[i..e])
  {
    var stuck, f, end := Descend([s[i]], s, i + 1);
    assert end < |s| && e == end + 1;
    SliceOfSlice(s, i, e, 1, e - i - 1);
    assert Balanced(s[i + 1..end]);
  }

  lemma {:induction false} GroupIsClosed(s: string, i: nat, e: nat)
    requires i < e <= |s|
    ensures Group(s[i..e]) ==> Scan([s[i]], s, i + 1) == Closed(e)
  {
    if !Group(s[i..e]) {
      return;
    }
    SliceOfSlice(s, i, e, 1, e - i - 1);
    var f :| WellFormed(f) && Unparse(f) == s[i + 1..e - 1];
    assert s[e - 1] == s[i..e][e - i - 1] == Flip(s[i]);
    hide WellFormed, Unparse;
    ScanOverForest(f, [s[i]], s, i + 1);
  }

  /**
    The machine started behind an opener closes at `e` exactly when the text up to `e` is one group.
    So `e` is the first (and only) position at which the word is balanced.
   */
  lemma ScanFindsTheGroup(s: string, i: nat, e: nat)
    requires i < |s| && Opener(s[i])
    ensures Scan([s[i]], s, i + 1) == Closed(e) <==> i < e <= |s| && Group(s[i..e])
  {
    if Scan([s[i]], s, i + 1) == Closed(e) {
      ClosedIsGroup(s, i, e);
    }
    if i < e <= |s| && Group(s[i..e]) {
      GroupIsClosed(s, i, e);
    }
  }

  /** A text that returns the machine to a stack it never went below is balanced, and conversely. */
  lemma {:induction false} ScanReturnsIffBalanced(base: char, s: string)
    ensures Scan([base], s, 0) == Pending([base]) <==> Balanced(s)
  {
    assert s[0..|s|] == s;
    if Scan([base], s, 0) == Pending([base]) {
      var stuck, f, end := Descend([base], s, 0);
      assert end == |s|;
    }
    if Balanced(s) {
      var f :| WellFormed(f) && Unparse(f) == s;
      ScanOverForest(f, [base], s, 0);
    }
  }

  // ----- Reading backwards -----

  /** The text read from right to left with every bracket turned around. */
  function Mirror(s: string): (r: string)
    ensures |r| == |s|
  {
    seq(|s|, k requires 0 <= k < |s| => Flip(s[|s| - 1 - k]))
  }

  lemma MirrorConcat(a: string, b: string)
    ensures Mirror(a + b) == Mirror(b) + Mirror(a)
  {
  }

  lemma MirrorSlice(s: string, lo: nat, hi: nat)
    requires lo <= hi <= |s|
    ensures Mirror(s)[|s| - hi..|s| - lo] == Mirror(s[lo..hi])
  {
    var a, b := Mirror(s)[|s| - hi..|s| - lo], Mirror(s[lo..hi]);
    forall k | 0 <= k < hi - lo
      ensures a[k] == b[k]
    {
      assert a[k] == Mirror(s)[|s| - hi + k] == Flip(s[hi - 1 - k]);
      assert b[k] == Flip(s[lo..hi][hi - lo - 1 - k]);
    }
  }

  lemma MirrorTwice(s: string)
    ensures Mirror(Mirror(s)) == s
  {
    var r := Mirror(s);
    forall k | 0 <= k < |s|
      ensures Mirror(r)[k] == s[k]
    {
      var j := |s| - 1 - k;
      assert Mirror(r)[k] == Flip(r[j]) && r[j] == Flip(s[|s| - 1 - j]);
    }
  }

  lemma MirrorOne(c: char)
    ensures Mirror([c]) == [Flip(c)]
  {
  }

  function Append(f: Forest, g: Forest): Forest {
    match f
    case Nil => g
    case Text(c, rest) => Text(c, Append(rest, g))
    case Nest(open, body, rest) => Nest(open, body, Append(rest, g))
  }

  lemma {:induction false} UnparseAppend(f: Forest, g: Forest)
    requires WellFormed(f) && WellFormed(g)
    ensures WellFormed(Append(f, g)) && Unparse(Append(f, g)) == Unparse(f) + Unparse(g)
  {
    match f
    case Nil =>
    case Text(c, rest) =>
      UnparseAppend(rest, g);
    case Nest(open, body, rest) =>
      UnparseAppend(rest, g);
      var group := [open] + Unparse(body) + [Flip(open)];
      assert group + (Unparse(rest) + Unparse(g)) == group + Unparse(rest) + Unparse(g);
  }

  function MirrorForest(f: Forest): Forest {
    match f
    case Nil => Nil
    case Text(c, rest) => Append(MirrorForest(rest), Text(c, Nil))
    case Nest(open, body, rest) => Append(MirrorForest(rest), Nest(open, MirrorForest(body), Nil))
  }

  lemma {:induction false} MirrorGroup(open: char, inside: string)
    requires Opener(open)
    ensures Mirror([open] + inside + [Flip(open)]) == [open] + Mirror(inside) + [Flip(open)]
  {
    MirrorConcat([open] + inside, [Flip(open)]);
    MirrorConcat([open], inside);
    MirrorOne(open);
    MirrorOne(Flip(open));
  }

  lemma {:induction false} MirrorUnparse(f: Forest)
    requires WellFormed(f)
    ensures WellFormed(MirrorForest(f)) && Unparse(MirrorForest(f)) == Mirror(Unparse(f))
  {
    match f
    case Nil =>
    case Text(c, rest) =>
      MirrorUnparse(rest);
      UnparseAppend(MirrorForest(rest), Text(c, Nil));
      MirrorConcat([c], Unparse(rest));
      MirrorOne(c);
    case Nest(open, body, rest) =>
      MirrorUnparse(body);
      MirrorUnparse(rest);
      var nest := Nest(open, MirrorForest(body), Nil);
      UnparseAppend(MirrorForest(rest), nest);
      var group := [open] + Unparse(body) + [Flip(open)];
      MirrorConcat(group, Unparse(rest));
      MirrorGroup(open, Unparse(body));
      assert Unparse(nest) == Mirror(group);
  }

  lemma {:induction false} BalancedMirrored(s: string)
    ensures Balanced(s) ==> Balanced(Mirror(s))
  {
    if Balanced(s) {
      var f :| WellFormed(f) && Unparse(f) == s;
      MirrorUnparse(f);
    }
  }

  /** Being a group does not depend on the reading direction. */
  lemma {:induction false} GroupMirrored(s: string)
    ensures Group(s) <==> Group(Mirror(s))
  {
    MirrorTwice(s);
    if |s| >= 2 {
      var inside := s[1..|s| - 1];
      MirrorSlice(s, 1, |s| - 1);
      MirrorTwice(inside);
      BalancedMirrored(inside);
      BalancedMirrored(Mirror(inside));
    }
  }

  /** Read backwards from a closer, the machine finds the start of the group that ends there. */
  lemma ScanFindsTheGroupBackwards(s: string, b: nat, e: nat)
    requires b < |s| && 0 < e <= |s| && Closer(s[e - 1])
    ensures Scan([Flip(s[e - 1])], Mirror(s), |s| - e + 1) == Closed(|s| - b) <==> b < e && Group(s[b..e])
  {
    assert Mirror(s)[|s| - e] == Flip(s[e - 1]);
    ScanFindsTheGroup(Mirror(s), |s| - e, |s| - b);
    if b < e {
      MirrorSlice(s, b, e);
      GroupMirrored(s[b..e]);
    }
  }
}
