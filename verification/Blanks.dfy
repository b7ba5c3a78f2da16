/** Blanks around a text, and what trimming them leaves. */
module Blanks {
  import opened ExpressionMatcher

  ghost predicate AllBlank(s: string) {
    forall k :: 0 <= k < |s| ==> IsSpace(s[k])
  }

  /** What is trimmed are blanks. */
  lemma {:induction false} TrimmedIsBlank(s: string)
    ensures AllBlank(s[|TrimRight(s)|..]) && TrimRight(s) == s[..|TrimRight(s)|]
  {
    if s != [] && IsSpace(s[|s| - 1]) {
      var init := s[..|s| - 1];
      TrimmedIsBlank(init);
      var t := TrimRight(init);
      assert s[|t|..] == init[|t|..] + [s[|s| - 1]];
      assert s[..|t|] == init[..|t|];
    }
  }

  /** Trimming stops at a character that is no blank. */
  lemma {:induction false} TrimStopsAt(s: string, m: nat)
    requires 0 < m <= |s| && !IsSpace(s[m - 1]) && AllBlank(s[m..])
    ensures TrimRight(s) == s[..m]
  {
    if m < |s| {
      assert s[|s| - 1] == s[m..][|s| - 1 - m];
      var init := s[..|s| - 1];
      assert init[m..] == s[m..][..|s| - 1 - m];
      TrimStopsAt(init, m);
      assert init[..m] == s[..m];
    } else {
      assert s[..m] == s;
    }
  }
}
