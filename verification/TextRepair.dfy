/** Replacing single characters of a text from right to left, and counting its lines in two ways. */
module TextRepair {
  import opened Sequences

  /** The text with the characters at the given positions replaced. */
  function Render(text: string, repl: map<nat, string>): string {
    if text == [] then []
    else
      var n: nat := |text| - 1;
      Render(text[..n], repl) + if n in repl then repl[n] else [text[n]]
  }

  function Edit(text: string, off: nat, s: string): string
    requires off < |text|
  {
    text[..off] + s + text[off + 1..]
  }

  /** The characters one by one, those at the given positions replaced. */
  function Pieces(text: string, repl: map<nat, string>): seq<string> {
    seq(|text|, i requires 0 <= i < |text| => if i in repl then repl[i] else [text[i]])
  }

  /** Nothing but these characters is replaced, and each by its replacement alone. */
  lemma {:induction false} RenderIsPieces(text: string, repl: map<nat, string>)
    ensures Render(text, repl) == Flatten(Pieces(text, repl))
  {
    if text != [] {
      var n := |text| - 1;
      RenderIsPieces(text[..n], repl);
      assert Pieces(text, repl)[..n] == Pieces(text[..n], repl);
    }
  }

  ghost predicate AllAbove(repl: map<nat, string>, off: nat) {
    forall k :: k in repl ==> k > off
  }

  lemma {:induction false} RenderUntouched(text: string, repl: map<nat, string>)
    requires forall k :: k in repl ==> k >= |text|
    ensures Render(text, repl) == text
  {
    if text != [] {
      RenderUntouched(text[..|text| - 1], repl);
    }
  }

  /** Replacements further right leave the beginning of the text alone. */
  lemma {:induction false} RenderKeepsPrefix(text: string, repl: map<nat, string>, off: nat)
    requires off < |text| && AllAbove(repl, off)
    ensures off < |Render(text, repl)| && Render(text, repl)[..off + 1] == text[..off + 1]
  {
    if off == |text| - 1 {
      RenderUntouched(text, repl);
    } else {
      var init := text[..|text| - 1];
      RenderKeepsPrefix(init, repl, off);
      assert init[..off + 1] == text[..off + 1];
    }
  }

  lemma EditInFront(r: string, piece: string, off: nat, s: string)
    requires off < |r|
    ensures Edit(r + piece, off, s) == Edit(r, off, s) + piece
  {
    var a, b := r[..off] + s, r[off + 1..];
    assert (r + piece)[..off] == r[..off] && (r + piece)[off + 1..] == b + piece;
    assert a + (b + piece) == (a + b) + piece;
  }

  /** So one more edit to the left of all others is one more replacement. */
  lemma {:induction false} EditIsReplacement(text: string, repl: map<nat, string>, off: nat, s: string)
    requires off < |text| && AllAbove(repl, off)
    ensures off < |Render(text, repl)|
    ensures Edit(Render(text, repl), off, s) == Render(text, repl[off := s])
  {
    hide Edit;
    RenderKeepsPrefix(text, repl, off);
    var n: nat, init := |text| - 1, text[..|text| - 1];
    if off == n {
      EditLast(text, repl, s);
    } else {
      RenderKeepsPrefix(init, repl, off);
      EditIsReplacement(init, repl, off, s);
      EditInFront(Render(init, repl), if n in repl then repl[n] else [text[n]], off, s);
    }
  }

  lemma EditLast(text: string, repl: map<nat, string>, s: string)
    requires text != [] && forall k :: k in repl ==> k >= |text|
    ensures Render(text, repl) == text && Edit(text, |text| - 1, s) == Render(text, repl[|text| - 1 := s])
  {
    var n: nat := |text| - 1;
    RenderUntouched(text, repl);
    RenderUntouched(text[..n], repl[n := s]);
    assert text[..n] + s + [] == text[..n] + s;
  }

  // ----- Lines -----

  /** `splitlines` ends a line after "\n", "\r\n" and a lone "\r". */
  predicate EndsLine(text: string, j: nat)
    requires j < |text|
  {
    text[j] == '\n' || (text[j] == '\r' && !(j + 1 < |text| && text[j + 1] == '\n'))
  }

  /** How many lines of `splitlines` end at or before `off`: the index of the line that `off` is on. */
  function LinesBefore(text: string, off: nat): nat
    requires off <= |text|
  {
    if off == 0 then 0 else LinesBefore(text, off - 1) + if EndsLine(text, off - 1) then 1 else 0
  }

  function Newlines(text: string): nat {
    if text == [] then 0 else Newlines(text[..|text| - 1]) + if text[|text| - 1] == '\n' then 1 else 0
  }

  /** The number of lines that `readlines` returns: it only ends lines at "\n". */
  function ReadLines(text: string): nat {
    Newlines(text) + if text != [] && text[|text| - 1] != '\n' then 1 else 0
  }

  lemma {:induction false} LinesBeforeLocal(a: string, b: string, off: nat, k: nat)
    requires k <= off < |a| && off < |b| && a[..off + 1] == b[..off + 1]
    ensures LinesBefore(a, k) == LinesBefore(b, k)
  {
    if k > 0 {
      LinesBeforeLocal(a, b, off, k - 1);
      assert a[k - 1] == a[..off + 1][k - 1] && b[k - 1] == b[..off + 1][k - 1];
      assert a[k] == a[..off + 1][k] && b[k] == b[..off + 1][k];
    }
  }

  lemma {:induction false} NewlinesConcat(a: string, b: string)
    ensures Newlines(a + b) == Newlines(a) + Newlines(b)
  {
    if b == [] {
      assert a + b == a;
    } else {
      var c := a + b;
      NewlinesConcat(a, b[..|b| - 1]);
      assert c[..|c| - 1] == a + b[..|b| - 1];
    }
  }

  lemma {:induction false} NoNewlines(s: string)
    requires '\n' !in s
    ensures Newlines(s) == 0
  {
    if s != [] {
      NoNewlines(s[..|s| - 1]);
    }
  }

  /** Replacing characters that do not end a line by text without line ends keeps the number of lines. */
  lemma {:induction false} RenderKeepsLines(text: string, repl: map<nat, string>)
    requires forall k :: k in repl && k < |text| ==> text[k] != '\n' && repl[k] != [] && '\n' !in repl[k]
    ensures ReadLines(Render(text, repl)) == ReadLines(text) && Newlines(Render(text, repl)) == Newlines(text)
    ensures Render(text, repl) == [] <==> text == []
  {
    if text != [] {
      var n: nat := |text| - 1;
      RenderKeepsLines(text[..n], repl);
      var piece := if n in repl then repl[n] else [text[n]];
      NewlinesConcat(Render(text[..n], repl), piece);
      assert text == text[..n] + [text[n]];
      NewlinesConcat(text[..n], [text[n]]);
      if n in repl {
        NoNewlines(piece);
        NoNewlines([text[n]]);
        assert piece[|piece| - 1] in piece;
      }
    }
  }

  /** Every carriage return belongs to a line end of two characters. */
  ghost predicate NoLoneReturn(text: string) {
    forall j :: 0 <= j < |text| && text[j] == '\r' ==> j + 1 < |text| && text[j + 1] == '\n'
  }

  /** Without lone carriage returns both ways of counting agree far enough. */
  lemma LineIndexInBounds(text: string, off: nat)
    requires off < |text| && NoLoneReturn(text)
    ensures LinesBefore(text, off) < ReadLines(text)
  {
    LinesAreNewlines(text, off);
    var rest := text[off..];
    assert text == text[..off] + rest;
    NewlinesConcat(text[..off], rest);
    if text[|text| - 1] == '\n' {
      assert rest == rest[..|rest| - 1] + ['\n'];
      NewlinesConcat(rest[..|rest| - 1], ['\n']);
      assert Newlines(['\n']) == 1;
    }
  }

  lemma {:induction false} LinesAreNewlines(text: string, off: nat)
    requires off <= |text| && NoLoneReturn(text)
    ensures LinesBefore(text, off) == Newlines(text[..off])
  {
    if off > 0 {
      LinesAreNewlines(text, off - 1);
      assert text[..off][..off - 1] == text[..off - 1];
    }
  }

  lemma {:induction false} LinesBeforeGrows(text: string, a: nat, b: nat)
    requires a <= b <= |text|
    ensures LinesBefore(text, a) <= LinesBefore(text, b)
  {
    if a < b {
      LinesBeforeGrows(text, a, b - 1);
    }
  }

  /** A lone carriage return on a single line: the line counted is not among those read. */
  lemma LoneReturnIsOutOfBounds(text: string, off: nat)
    requires 1 < |text| && text[0] == '\r' && '\n' !in text && 0 < off < |text|
    ensures LinesBefore(text, off) >= ReadLines(text)
  {
    assert text[1] in text && EndsLine(text, 0) && LinesBefore(text, 0) == 0;
    assert LinesBefore(text, 1) == 1;
    LinesBeforeGrows(text, 1, off);
    NoNewlines(text);
  }
}
