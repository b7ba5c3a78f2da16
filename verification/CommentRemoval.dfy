/** cpplint's removal of multi-line comments: which lines it blanks, what it reports, and that once is enough. */
module CommentRemoval {
  import opened ExpressionMatcher

  const DUMMY := "// dummy"

  function TrimLeft(s: string): string {
    if s != [] && IsSpace(s[0]) then TrimLeft(s[1..]) else s
  }

  function Strip(s: string): string {
    TrimLeft(TrimRight(s))
  }

  predicate StartsComment(s: string) {
    |s| >= 2 && s[0] == '/' && s[1] == '*'
  }

  predicate EndsComment(s: string) {
    |s| >= 2 && s[|s| - 2] == '*' && s[|s| - 1] == '/'
  }

  /** The line starts with a comment that does not end on it. */
  predicate Opens(line: string) {
    var s := Strip(line);
    StartsComment(s) && !exists k :: 2 <= k < |s| - 1 && s[k] == '*' && s[k + 1] == '/'
  }

  predicate Closes(line: string) {
    EndsComment(Strip(line))
  }

  // ----- Which lines are comment lines -----

  /** Line `i` begins outside of multi-line comments. */
  ghost predicate Outside(lines: seq<string>, i: nat)
    requires i <= |lines|
  {
    if i == 0 then true
    else if Outside(lines, i - 1) then !Opens(lines[i - 1]) || Closes(lines[i - 1])
    else Closes(lines[i - 1])
  }

  ghost predicate InComment(lines: seq<string>, i: nat)
    requires i < |lines|
  {
    !Outside(lines, i) || Opens(lines[i])
  }

  ghost predicate ClosedFrom(lines: seq<string>, i: nat) {
    exists e :: i <= e < |lines| && Closes(lines[e])
  }

  /** The lines with every finished multi-line comment blanked. */
  ghost function Cleaned(lines: seq<string>): (r: seq<string>)
    ensures |r| == |lines|
  {
    seq(|lines|, k requires 0 <= k < |lines| => if InComment(lines, k) && ClosedFrom(lines, k) then DUMMY else lines[k])
  }

  /** Line `b` opens a comment that nothing closes. */
  ghost predicate Unfinished(lines: seq<string>, b: nat)
    requires b < |lines|
  {
    Outside(lines, b) && Opens(lines[b]) && !ClosedFrom(lines, b)
  }

  datatype Report = NoError | Error(line: nat)    // lines are counted from 1

  ghost predicate Reports(lines: seq<string>, r: Report) {
    match r
    case NoError => forall b :: 0 <= b < |lines| ==> !Unfinished(lines, b)
    case Error(line) => 0 < line <= |lines| && Unfinished(lines, line - 1)
  }

  // ----- Runs of lines -----

  lemma {:induction false} StaysOutside(lines: seq<string>, i: nat, b: nat)
    requires i <= b <= |lines| && Outside(lines, i)
    requires forall k :: i <= k < b ==> !Opens(lines[k])
    ensures forall k :: i <= k <= b ==> Outside(lines, k)
  {
    if i < b {
      StaysOutside(lines, i, b - 1);
    }
  }

  lemma {:induction false} StaysInside(lines: seq<string>, b: nat, e: nat)
    requires b <= e <= |lines| && b < |lines| && Outside(lines, b) && Opens(lines[b])
    requires forall k :: b <= k < e ==> !Closes(lines[k])
    ensures forall k :: b < k <= e ==> !Outside(lines, k)
  {
    if b + 1 < e {
      StaysInside(lines, b, e - 1);
    }
  }

  /** Lines without an opening are left alone. */
  lemma PlainLines(lines: seq<string>, i: nat, b: nat)
    requires i <= b <= |lines| && Outside(lines, i) && forall k :: i <= k < b ==> !Opens(lines[k])
    ensures Outside(lines, b)
    ensures forall k :: i <= k < b ==> Cleaned(lines)[k] == lines[k] && !Unfinished(lines, k)
  {
    hide Opens, Closes;
    StaysOutside(lines, i, b);
  }

  /** A comment from its opening to its end is blanked. */
  lemma FinishedComment(lines: seq<string>, b: nat, e: nat)
    requires b <= e < |lines| && Outside(lines, b) && Opens(lines[b]) && Closes(lines[e])
    requires forall k :: b <= k < e ==> !Closes(lines[k])
    ensures Outside(lines, e + 1)
    ensures forall k :: b <= k <= e ==> Cleaned(lines)[k] == DUMMY && !Unfinished(lines, k)
  {
    hide Opens, Closes;
    StaysInside(lines, b, e);
  }

  /** A comment without an end is left alone. */
  lemma UnfinishedComment(lines: seq<string>, b: nat)
    requires b < |lines| && Outside(lines, b) && Opens(lines[b]) && forall k :: b <= k < |lines| ==> !Closes(lines[k])
    ensures Unfinished(lines, b)
    ensures forall k :: b <= k < |lines| ==> Cleaned(lines)[k] == lines[k]
  {
    hide Opens, Closes;
    StaysInside(lines, b, |lines|);
  }

  // ----- The removal as it runs -----

  method FindNextMultiLineCommentStart(lines: array<string>, lineix: nat) returns (r: nat)
    requires lineix <= lines.Length
    ensures lineix <= r <= lines.Length && (r < lines.Length ==> Opens(lines[r]))
    ensures forall k :: lineix <= k < r ==> !Opens(lines[k])
  {
    r := lineix;
    while r < lines.Length
      invariant lineix <= r <= lines.Length
      invariant forall k :: lineix <= k < r ==> !Opens(lines[k])
    {
      if Opens(lines[r]) {
        return r;
      }
      r := r + 1;
    }
  }

  method FindNextMultiLineCommentEnd(lines: array<string>, lineix: nat) returns (r: nat)
    requires lineix <= lines.Length
    ensures lineix <= r <= lines.Length && (r < lines.Length ==> Closes(lines[r]))
    ensures forall k :: lineix <= k < r ==> !Closes(lines[k])
  {
    r := lineix;
    while r < lines.Length
      invariant lineix <= r <= lines.Length
      invariant forall k :: lineix <= k < r ==> !Closes(lines[k])
    {
      if Closes(lines[r]) {
        return r;
      }
      r := r + 1;
    }
  }

  method RemoveMultiLineCommentsFromRange(lines: array<string>, begin: nat, end: nat)
    requires begin <= end <= lines.Length
    modifies lines
    ensures forall k :: 0 <= k < lines.Length ==> lines[k] == if begin <= k < end then DUMMY else old(lines[k])
  {
    for i := begin to end
      invariant forall k :: 0 <= k < lines.Length ==> lines[k] == if begin <= k < i then DUMMY else old(lines[k])
    {
      lines[i] := DUMMY;
    }
  }

  /** Blanks exactly the lines of finished comments and reports an unfinished one if there is one. */
  method RemoveMultiLineComments(lines: array<string>) returns (r: Report)
    modifies lines
    ensures lines[..] == Cleaned(old(lines[..]))
    ensures Reports(old(lines[..]), r)
  {
    hide Opens, Closes, Outside, Cleaned, Unfinished;
    ghost var was := lines[..];
    var lineix := 0;
    StartsOutside(was);
    while lineix < lines.Length
      invariant 0 <= lineix <= lines.Length && Outside(was, lineix)
      invariant forall k :: 0 <= k < lineix ==> lines[k] == Cleaned(was)[k] && !Unfinished(was, k)
      invariant forall k :: lineix <= k < lines.Length ==> lines[k] == was[k]
    {
      var begin := FindNextMultiLineCommentStart(lines, lineix);
      PlainLines(was, lineix, begin);
      if begin >= lines.Length {
        assert lines[..] == Cleaned(was);
        return NoError;
      }
      var end := FindNextMultiLineCommentEnd(lines, begin);
      if end >= lines.Length {
        UnfinishedComment(was, begin);
        assert lines[..] == Cleaned(was);
        return Error(begin + 1);
      }
      FinishedComment(was, begin, end);
      RemoveMultiLineCommentsFromRange(lines, begin, end + 1);
      lineix := end + 1;
    }
    assert lines[..] == Cleaned(was);
    r := NoError;
  }

  lemma StartsOutside(lines: seq<string>)
    ensures Outside(lines, 0)
  {
  }

  // ----- Once is enough -----

  lemma DummyIsNoComment()
    ensures !Opens(DUMMY) && !Closes(DUMMY)
  {
    assert TrimRight(DUMMY) == DUMMY && TrimLeft(DUMMY) == DUMMY;
  }

  /** At most one comment is unfinished, and everything in front of it is. */
  lemma {:induction false} NothingOpensBefore(lines: seq<string>, n: nat)
    requires n <= |lines| && Outside(lines, n)
    requires forall b :: 0 <= b < n ==> !Unfinished(lines, b)
    ensures forall k :: 0 <= k < n ==> !Opens(Cleaned(lines)[k])
  {
    hide Opens, Closes;
    DummyIsNoComment();
    forall k | 0 <= k < n && Opens(lines[k])
      ensures ClosedFrom(lines, k)
    {
      assert !Unfinished(lines, k);
      if !Outside(lines, k) {
        InsideIsClosed(lines, k, n);
      }
    }
  }

  lemma {:induction false} InsideIsClosed(lines: seq<string>, k: nat, n: nat)
    requires k <= n <= |lines| && !Outside(lines, k) && Outside(lines, n)
    ensures ClosedFrom(lines, k)
    decreases n
  {
    hide Opens, Closes;
    if !Closes(lines[n - 1]) {
      InsideIsClosed(lines, k, n - 1);
    }
  }

  lemma {:induction false} OutsideAtEnd(lines: seq<string>, n: nat)
    requires n <= |lines| && !Outside(lines, n) && forall k :: n <= k < |lines| ==> !Closes(lines[k])
    ensures exists b :: 0 <= b < n && Unfinished(lines, b)
  {
    hide Opens, Closes;
    if Outside(lines, n - 1) {
      assert Unfinished(lines, n - 1);
    } else {
      OutsideAtEnd(lines, n - 1);
    }
  }

  /**
    If no error is reported, no line that opens an unfinished comment remains, and a second
    removal changes nothing and reports nothing.
   */
  lemma SecondPassIsIdle(lines: seq<string>)
    requires Reports(lines, NoError)
    ensures forall k :: 0 <= k < |lines| ==> !Opens(Cleaned(lines)[k])
    ensures Cleaned(Cleaned(lines)) == Cleaned(lines) && Reports(Cleaned(lines), NoError)
  {
    hide Opens, Closes;
    var once := Cleaned(lines);
    if !Outside(lines, |lines|) {
      OutsideAtEnd(lines, |lines|);
      assert false;
    }
    NothingOpensBefore(lines, |lines|);
    PlainLines(once, 0, |once|);
  }

  /** With an error the second removal, too, changes nothing, and reports the same line. */
  lemma SecondPassRepeatsError(lines: seq<string>, line: nat)
    requires Reports(lines, Error(line))
    ensures Cleaned(Cleaned(lines)) == Cleaned(lines) && Reports(Cleaned(lines), Error(line))
  {
    hide Opens, Closes;
    var once, b := Cleaned(lines), line - 1;
    forall k | 0 <= k < b
      ensures !Unfinished(lines, k)
    {
      if Unfinished(lines, k) {
        StaysInside(lines, k, b);
      }
    }
    NothingOpensBefore(lines, b);
    UnfinishedComment(lines, b);
    PlainLines(once, 0, b);
    UnfinishedComment(once, b);
  }
}
