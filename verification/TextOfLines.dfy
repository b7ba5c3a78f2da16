/** A file as a sequence of lines and as the one text they make up. */
module TextOfLines {
  import opened Sequences

  /** Where line `n` starts in the text. */
  function Offset(lines: seq<string>, n: nat): nat
    requires n <= |lines|
  {
    if n == 0 then 0 else Offset(lines, n - 1) + |lines[n - 1]|
  }

  lemma {:induction false} OffsetOfPrefix(lines: seq<string>, n: nat)
    requires n < |lines|
    ensures Offset(lines[..|lines| - 1], n) == Offset(lines, n)
  {
    if n > 0 {
      OffsetOfPrefix(lines, n - 1);
    }
  }

  lemma {:induction false} FlatLength(lines: seq<string>)
    ensures |Flatten(lines)| == Offset(lines, |lines|)
  {
    if lines != [] {
      FlatLength(lines[..|lines| - 1]);
      OffsetOfPrefix(lines, |lines| - 1);
    }
  }

  lemma {:induction false} OffsetMonotonic(lines: seq<string>, m: nat, n: nat)
    requires m <= n <= |lines|
    ensures Offset(lines, m) <= Offset(lines, n)
  {
    if m < n {
      OffsetMonotonic(lines, m, n - 1);
    }
  }

  /** The lines, laid out one after the other, make up the text. */
  ghost predicate LaidOut(lines: seq<string>, text: string) {
    && |text| == Offset(lines, |lines|)
    && forall n :: 0 <= n < |lines| ==> LineAt(lines, text, n)
  }

  ghost predicate LineAt(lines: seq<string>, text: string, n: nat)
    requires n < |lines|
  {
    var lo := Offset(lines, n);
    lo + |lines[n]| <= |text| && text[lo..lo + |lines[n]|] == lines[n]
  }

  lemma {:induction false} FlatLaidOut(lines: seq<string>)
    ensures LaidOut(lines, Flatten(lines))
  {
    FlatLength(lines);
    if lines != [] {
      var init, last := lines[..|lines| - 1], lines[|lines| - 1];
      FlatLaidOut(init);
      forall n | 0 <= n < |lines|
        ensures LineAt(lines, Flatten(lines), n)
      {
        OffsetOfPrefix(lines, n);
        if n < |init| {
          assert LineAt(init, Flatten(init), n);
          var lo := Offset(lines, n);
          assert (Flatten(init) + last)[lo..lo + |lines[n]|] == Flatten(init)[lo..lo + |lines[n]|];
        } else {
          FlatLength(init);
        }
      }
    }
  }

  lemma CharInText(lines: seq<string>, text: string, n: nat, i: nat)
    requires LaidOut(lines, text) && n < |lines| && i < |lines[n]|
    ensures Offset(lines, n) + i < |text| && text[Offset(lines, n) + i] == lines[n][i]
  {
    assert LineAt(lines, text, n);
    var lo := Offset(lines, n);
    assert lines[n][i] == text[lo..lo + |lines[n]|][i];
  }

  /** Positions of characters on lines and in the text correspond one to one. */
  lemma OffsetInjective(lines: seq<string>, m: nat, i: nat, n: nat, j: nat)
    requires m < |lines| && i < |lines[m]| && n < |lines| && j < |lines[n]|
    requires Offset(lines, m) + i == Offset(lines, n) + j
    ensures m == n && i == j
  {
    if m < n {
      OffsetMonotonic(lines, m + 1, n);
    } else if n < m {
      OffsetMonotonic(lines, n + 1, m);
    }
  }

  /** `line` is the line that the character at `at` of the text stands on. */
  ghost predicate OnLine(lines: seq<string>, line: string, at: int) {
    exists n :: 0 <= n < |lines| && line == lines[n] && Offset(lines, n) <= at < Offset(lines, n + 1)
  }
}
