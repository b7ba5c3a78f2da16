/** cpplint's third matcher, which extracts the text between two matching brackets, and its agreement with the first. */
module TextInside {
  import opened BracketWords
  import opened ExpressionMatcher
  import opened ForwardMatching
  import opened Options

  /** The openers that the expected closers on the stack belong to. */
  function Openers(closers: seq<char>): (r: seq<char>)
    ensures |r| == |closers|
  {
    if closers == [] then [] else Openers(Pop(closers)) + [Flip(Top(closers))]
  }

  ghost predicate AllClosers(stack: seq<char>) {
    forall k :: 0 <= k < |stack| ==> Closer(stack[k])
  }

  lemma {:induction false} OpenersOne(c: char)
    requires Opener(c)
    ensures Openers([Flip(c)]) == [c]
  {
    assert Pop([Flip(c)]) == [];
  }

  /** One character, with closers stacked instead of openers. */
  lemma {:induction false} StepOnClosers(closers: seq<char>, c: char)
    requires closers != [] && AllClosers(closers)
    ensures Step(Openers(closers), c) ==
            if c == Top(closers) then (if |closers| == 1 then Done else Next(Openers(Pop(closers))))
            else if Closer(c) then Bad
            else if Opener(c) then Next(Openers(closers + [Flip(c)]))
            else Next(Openers(closers))
  {
    assert Closer(Top(closers));
    assert Top(Openers(closers)) == Flip(Top(closers));
    if c == Top(closers) {
      assert Pop(Openers(closers)) == Openers(Pop(closers));
    } else if Opener(c) {
      assert Pop(closers + [Flip(c)]) == closers;
    }
  }

  /** Scanning `text` from the opener with the angle heuristics. */
  lemma {:induction false} FirstMatcherIsPlain(text: string, start: nat)
    requires 0 < start <= |text| && Opener(text[start - 1])
    ensures match ForwardScan(text, start - 1, [])
            case Found(e) => Scan([text[start - 1]], text, start) == Closed(e)
            case Failed => Scan([text[start - 1]], text, start).Mismatch?
            case Continue(_) => Scan([text[start - 1]], text, start).Pending?
  {
    var c := text[start - 1];
    assert [] + [c] == [c];
    assert ForwardScan(text, start - 1, []) == ForwardScan(text, start, [c]);
    ForwardScanSimulates(text, start, [c]);
  }

  /**
    `matchEnd` is where the first match of the start pattern ends, if there is one; the pattern
    has to end in an opening bracket.  The result is the text between that bracket and the one
    that closes it, exactly when the first matcher, started at the bracket, finds that closer.
   */
  method GetTextInside(text: string, matchEnd: Option<nat>) returns (r: Option<string>)
    requires matchEnd.Some? ==> 0 < matchEnd.value <= |text| && Opener(text[matchEnd.value - 1])
    ensures matchEnd.None? ==> r.None?
    ensures matchEnd.Some? ==>
              match ForwardScan(text, matchEnd.value - 1, [])
              case Found(e) => matchEnd.value < e <= |text| && r == Some(text[matchEnd.value..e - 1])
              case _ => r.None?
  {
    hide ForwardScan, Step, Openers;
    if matchEnd.None? {
      return None;
    }
    var start := matchEnd.value;
    FirstMatcherIsPlain(text, start);
    ghost var result := Scan([text[start - 1]], text, start);
    var stack := [Flip(text[start - 1])];
    OpenersOne(text[start - 1]);
    var position := start;
    while stack != [] && position < |text|
      invariant start <= position <= |text| && AllClosers(stack)
      invariant stack == [] ==> start < position && result == Closed(position)
      invariant stack != [] ==> result == Scan(Openers(stack), text, position)
      decreases |text| - position
    {
      var c := text[position];
      StepOnClosers(stack, c);
      if c == Top(stack) {
        stack := Pop(stack);
      } else if Closer(c) {
        return None;
      } else if Opener(c) {
        stack := stack + [Flip(c)];
      }
      position := position + 1;
    }
    if stack != [] {
      return None;
    }
    return Some(text[start..position - 1]);
  }
}
