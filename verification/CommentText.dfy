/** Which lines open and close a multi-line comment, told by their characters. */
module CommentText {
  import opened Blanks
  import opened CommentRemoval
  import opened ExpressionMatcher

  // ----- Stripping -----

  /** A character that is no blank is not among blanks. */
  lemma NotAmong(s: string, lo: nat, hi: nat, k: nat)
    requires lo <= hi <= |s| && AllBlank(s[lo..hi]) && k < |s| && !IsSpace(s[k])
    ensures k < lo || hi <= k
  {
  }

  lemma {:induction false} TrimLeftIs(s: string)
    ensures |TrimLeft(s)| <= |s|
    ensures var n := |s| - |TrimLeft(s)|;
            TrimLeft(s) == s[n..] && AllBlank(s[..n]) && (n < |s| ==> !IsSpace(s[n]))
  {
    if s != [] && IsSpace(s[0]) {
      var rest := s[1..];
      TrimLeftIs(rest);
      var n := |s| - |TrimLeft(s)|;
      assert rest[n - 1..] == s[n..];
      assert s[..n] == [s[0]] + rest[..n - 1];
    } else {
      assert s[0..] == s;
    }
  }

  /** What is stripped are blanks, and what is left has no blank at either end. */
  lemma StripIs(s: string) returns (i: nat, j: nat)
    ensures i <= j <= |s| && Strip(s) == s[i..j]
    ensures AllBlank(s[..i]) && AllBlank(s[j..])
    ensures i < j ==> !IsSpace(s[i]) && !IsSpace(s[j - 1])
  {
    hide TrimLeft;
    var t := TrimRight(s);
    TrimmedIsBlank(s);
    hide TrimRight;
    TrimLeftIs(t);
    i, j := |t| - |Strip(s)|, |t|;
    assert t[..i] == s[..i] && t[i..] == s[i..j];
  }

  /** There is only one way to take blanks off both ends until none is left there. */
  lemma StripOf(s: string, i: nat, j: nat)
    requires i < j <= |s| && !IsSpace(s[i]) && !IsSpace(s[j - 1])
    requires AllBlank(s[..i]) && AllBlank(s[j..])
    ensures Strip(s) == s[i..j]
  {
    hide TrimRight, TrimLeft;
    TrimStopsAt(s, j);
    var t := s[..j];
    TrimLeftIs(t);
    var n := |t| - |TrimLeft(t)|;
    assert t[0..n] == t[..n] && s[0..i] == s[..i];
    NotAmong(t, 0, n, i);
    NotAmong(s, 0, i, n);
  }

  lemma BlankStripped(s: string)
    requires AllBlank(s)
    ensures Strip(s) == []
  {
    hide Strip;
    var i, j := StripIs(s);
  }

  /** Blanks around a text do not matter. */
  lemma StripIgnoresBlanks(before: string, s: string, after: string)
    requires AllBlank(before) && AllBlank(after)
    ensures Strip(before + s + after) == Strip(s)
  {
    hide Strip;
    var i, j := StripIs(s);
    var whole, n := before + s + after, |before|;
    if i < j {
      assert whole[..n + i] == before + s[..i] && whole[n + j..] == s[j..] + after;
      StripOf(whole, n + i, n + j);
      assert whole[n + i..n + j] == s[i..j];
    } else {
      assert s == s[..i] + s[j..];
      BlankStripped(whole);
    }
  }

  // ----- Opening and closing -----

  predicate EndMarker(line: string, k: nat) {
    k + 1 < |line| && line[k] == '*' && line[k + 1] == '/'
  }

  /** Behind blanks the comment starts at `i`, and no end marker follows. */
  ghost predicate OpenedAt(line: string, i: nat) {
    && i + 2 <= |line| && AllBlank(line[..i]) && line[i..i + 2] == "/*"
    && forall k: nat :: i + 2 <= k ==> !EndMarker(line, k)
  }

  /** The end marker at `j` has only blanks behind it. */
  ghost predicate ClosedAt(line: string, j: nat) {
    EndMarker(line, j) && AllBlank(line[j + 2..])
  }

  lemma OpensIff(line: string)
    ensures Opens(line) <==> exists i: nat :: OpenedAt(line, i)
  {
    hide Strip;
    var i, j := StripIs(line);
    if Opens(line) {
      forall k: nat | i + 2 <= k && EndMarker(line, k)
        ensures false
      {
        MarkerIsInside(line, i, j, k);
      }
      assert OpenedAt(line, i);
    }
    if n: nat :| OpenedAt(line, n) {
      assert line[n] == line[n..n + 2][0] && line[n + 1] == line[n..n + 2][1];
      FirstNonBlank(line, i, j, n);
      forall k | 2 <= k < |Strip(line)| - 1
        ensures !(Strip(line)[k] == '*' && Strip(line)[k + 1] == '/')
      {
        assert !EndMarker(line, i + k);
      }
    }
  }

  lemma MarkerIsInside(line: string, i: nat, j: nat, k: nat)
    requires i <= j <= |line| && AllBlank(line[..i]) && AllBlank(line[j..]) && EndMarker(line, k)
    ensures i <= k && k + 2 <= j && EndMarker(line[i..j], k - i)
  {
    assert line[0..i] == line[..i] && line[j..|line|] == line[j..];
    NotAmong(line, 0, i, k);
    NotAmong(line, j, |line|, k + 1);
  }

  lemma FirstNonBlank(line: string, i: nat, j: nat, n: nat)
    requires i <= j <= |line| && AllBlank(line[..i]) && AllBlank(line[j..]) && (i < j ==> !IsSpace(line[i]))
    requires n + 1 < |line| && AllBlank(line[..n]) && !IsSpace(line[n]) && !IsSpace(line[n + 1])
    ensures i == n && n + 2 <= j
  {
    assert line[0..i] == line[..i] && line[j..|line|] == line[j..] && line[0..n] == line[..n];
    NotAmong(line, 0, i, n);
    NotAmong(line, j, |line|, n + 1);
    NotAmong(line, 0, n, i);
  }

  lemma ClosesIff(line: string)
    ensures Closes(line) <==> exists j: nat :: ClosedAt(line, j)
  {
    hide Strip;
    var i, j := StripIs(line);
    if Closes(line) {
      assert ClosedAt(line, j - 2);
    }
    if m: nat :| ClosedAt(line, m) {
      MarkerIsInside(line, i, j, m);
      assert line[m + 2..|line|] == line[m + 2..];
      NotAmong(line, m + 2, |line|, j - 1);
    }
  }
}
