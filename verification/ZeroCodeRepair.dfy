/** Replacing zero codes in the source files by fresh codes. */
module ZeroCodeRepair {
  import opened Names
  import opened ErrorCodes
  import opened TextRepair

  type Files = map<string, string>

  // ----- The order of locations -----

  /** Tuples compare by file, then offset, then text, then code. */
  predicate LocationLe(a: Location, b: Location) {
    if a.file != b.file then NameLe(a.file, b.file)
    else if a.offset != b.offset then a.offset < b.offset
    else if a.lines != b.lines then NameLe(a.lines, b.lines)
    else NameLe(a.code, b.code)
  }

  lemma LocationLeTotal(a: Location, b: Location)
    ensures LocationLe(a, b) || LocationLe(b, a)
  {
    NameLeTotal(a.file, b.file);
    NameLeTotal(a.lines, b.lines);
    NameLeTotal(a.code, b.code);
  }

  lemma LocationLeAntisymmetric(a: Location, b: Location)
    requires LocationLe(a, b) && LocationLe(b, a)
    ensures a == b
  {
    if a.file != b.file {
      NameLeAntisymmetric(a.file, b.file);
    } else if a.lines != b.lines {
      NameLeAntisymmetric(a.lines, b.lines);
    } else {
      NameLeAntisymmetric(a.code, b.code);
    }
  }

  lemma LocationLeTransitive(a: Location, b: Location, c: Location)
    requires LocationLe(a, b) && LocationLe(b, c)
    ensures LocationLe(a, c)
  {
    if a.file != b.file && b.file != c.file {
      NameLeTransitive(a.file, b.file, c.file);
      if a.file == c.file {
        NameLeAntisymmetric(a.file, b.file);
      }
    } else if a.file == b.file && b.file == c.file && a.offset == b.offset && b.offset == c.offset {
      if a.lines != b.lines && b.lines != c.lines {
        NameLeTransitive(a.lines, b.lines, c.lines);
        if a.lines == c.lines {
          NameLeAntisymmetric(a.lines, b.lines);
        }
      } else if a.lines == b.lines && b.lines == c.lines {
        NameLeTransitive(a.code, b.code, c.code);
      }
    }
  }

  ghost predicate IsLast(s: set<Location>, l: Location) {
    l in s && forall o :: o in s ==> LocationLe(o, l)
  }

  lemma {:induction false} LastExists(s: set<Location>)
    requires s != {}
    ensures exists l :: IsLast(s, l)
  {
    var x :| x in s;
    var rest := s - {x};
    LocationLeTotal(x, x);
    if rest == {} {
      assert s == {x};
      assert IsLast(s, x);
    } else {
      LastExists(rest);
      var m :| IsLast(rest, m);
      LocationLeTotal(m, x);
      if LocationLe(m, x) {
        forall o | o in s
          ensures LocationLe(o, x)
        {
          if o != x {
            LocationLeTransitive(o, m, x);
          }
        }
        assert IsLast(s, x);
      } else {
        assert IsLast(s, m);
      }
    }
  }

  // ----- What a repair is -----

  /** The locations of `s` that are repaired before `l`. */
  ghost function After(s: set<Location>, l: Location): set<Location> {
    set o | o in s && o != l && LocationLe(l, o)
  }

  /** Codes are handed out from the last location backwards. */
  ghost function CodeOf(s: set<Location>, next: nat, l: Location): nat {
    next + |After(s, l)|
  }

  ghost predicate DistinctOffsets(s: set<Location>) {
    forall a, b :: a in s && b in s && a.file == b.file && a.offset == b.offset ==> a == b
  }

  /** The code of a location stands in its file where the parser found it. */
  ghost predicate PointsAtCode(files: Files, l: Location) {
    && l.file in files && l.offset + |l.code| <= |files[l.file]|
    && files[l.file][l.offset..l.offset + |l.code|] == l.code
  }

  /** Every location points at a zero. */
  ghost predicate PointAtZeros(files: Files, s: set<Location>) {
    forall l :: l in s ==> l.file in files && l.offset < |files[l.file]| && files[l.file][l.offset] == '0'
  }

  /** The numerals for the locations of `done` in file `f`. */
  ghost function Replacements(s: set<Location>, done: set<Location>, next: nat, f: string): map<nat, string>
    requires done <= s && DistinctOffsets(s)
  {
    map l | l in done && l.file == f :: l.offset := ToNumeral(CodeOf(s, next, l))
  }

  /** The files with exactly the zeros at the locations of `done` replaced. */
  ghost function Repaired(files: Files, s: set<Location>, done: set<Location>, next: nat): Files
    requires done <= s && DistinctOffsets(s)
  {
    map f | f in files :: Render(files[f], Replacements(s, done, next, f))
  }

  /** `readlines` has the line that `splitlines` says the location is on. */
  predicate LineShown(files: Files, l: Location)
    requires l.file in files && l.offset < |files[l.file]|
  {
    LinesBefore(files[l.file], l.offset) < ReadLines(files[l.file])
  }

  function ZeroErrors(errors: seq<Location>): set<Location>
    requires Parsed(errors)
  {
    set i | 0 <= i < |errors| && ToInt(errors[i].code) == 0 :: errors[i]
  }

  /** Zero codes are spelled with a zero at their start, so that is what is found there. */
  lemma ZeroErrorsPointAtZeros(files: Files, errors: seq<Location>)
    requires Parsed(errors) && forall i :: 0 <= i < |errors| ==> PointsAtCode(files, errors[i])
    ensures PointAtZeros(files, ZeroErrors(errors))
  {
    forall l | l in ZeroErrors(errors)
      ensures l.offset < |files[l.file]| && files[l.file][l.offset] == '0'
    {
      var i :| 0 <= i < |errors| && ToInt(errors[i].code) == 0 && errors[i] == l;
      assert PointsAtCode(files, errors[i]) && IsNumeral(errors[i].code);
      ZeroStartsWithZero(l.code);
      assert files[l.file][l.offset] == files[l.file][l.offset..l.offset + |l.code|][0];
    }
  }

  lemma AfterLast(s: set<Location>, todo: set<Location>, l: Location)
    requires todo <= s && IsLast(todo, l)
    requires forall d, t :: d in s - todo && t in todo ==> LocationLe(t, d)
    ensures After(s, l) == s - todo
  {
    forall o | o in After(s, l)
      ensures o !in todo
    {
      if o in todo {
        LocationLeAntisymmetric(o, l);
      }
    }
  }

  lemma NumeralHasNoNewline(n: nat)
    ensures ToNumeral(n) != [] && '\n' !in ToNumeral(n)
  {
  }

  lemma ReplacementsAbove(s: set<Location>, next: nat, l: Location)
    requires l in s && DistinctOffsets(s)
    ensures AllAbove(Replacements(s, After(s, l), next, l.file), l.offset)
  {
  }

  lemma ReplacementOf(s: set<Location>, done: set<Location>, next: nat, f: string, l: Location)
    requires done <= s && DistinctOffsets(s) && l in done && l.file == f
    ensures var r := Replacements(s, done, next, f);
            l.offset in r && r[l.offset] == ToNumeral(CodeOf(s, next, l))
  {
    hide CodeOf, ToNumeral;
  }

  lemma ReplacedBy(s: set<Location>, done: set<Location>, next: nat, f: string, k: nat) returns (l: Location)
    requires done <= s && DistinctOffsets(s) && k in Replacements(s, done, next, f)
    ensures l in done && l.file == f && l.offset == k
  {
    hide CodeOf, ToNumeral;
    l :| l in done && l.file == f && l.offset == k;
  }

  lemma ReplacementsStep(s: set<Location>, done: set<Location>, next: nat, l: Location, f: string)
    requires done <= s && l in s && DistinctOffsets(s)
    ensures Replacements(s, done + {l}, next, f) ==
            if f == l.file then Replacements(s, done, next, f)[l.offset := ToNumeral(CodeOf(s, next, l))]
            else Replacements(s, done, next, f)
  {
    hide CodeOf, ToNumeral, Replacements;
    var r, before := Replacements(s, done + {l}, next, f), Replacements(s, done, next, f);
    forall k | k in r
      ensures if f == l.file && k == l.offset then r[k] == ToNumeral(CodeOf(s, next, l)) else k in before && r[k] == before[k]
    {
      var o := ReplacedBy(s, done + {l}, next, f, k);
      ReplacementOf(s, done + {l}, next, f, o);
      if o in done {
        ReplacementOf(s, done, next, f, o);
      }
    }
    forall k | k in before
      ensures k in r
    {
      var o := ReplacedBy(s, done, next, f, k);
      ReplacementOf(s, done + {l}, next, f, o);
    }
    if f == l.file {
      ReplacementOf(s, done + {l}, next, f, l);
      SameEntries(r, before[l.offset := ToNumeral(CodeOf(s, next, l))]);
    } else {
      SameEntries(r, before);
    }
  }

  lemma SameEntries(a: map<nat, string>, b: map<nat, string>)
    requires forall k :: k in a ==> k in b && a[k] == b[k]
    requires forall k :: k in b ==> k in a
    ensures a == b
  {
  }

  /** What the repair of `l` finds in the file. */
  lemma TextAtRepair(files: Files, s: set<Location>, next: nat, l: Location)
    requires l in s && DistinctOffsets(s) && PointAtZeros(files, s)
    ensures var text := Render(files[l.file], Replacements(s, After(s, l), next, l.file));
            && l.offset < |text| && text[l.offset] == '0'
            && LinesBefore(text, l.offset) == LinesBefore(files[l.file], l.offset)
            && ReadLines(text) == ReadLines(files[l.file])
  {
    var done, original := After(s, l), files[l.file];
    var repl := Replacements(s, done, next, l.file);
    ReplacementsAbove(s, next, l);
    ReplacementsAreNumerals(files, s, done, next, l.file);
    hide Render, CodeOf, After, LinesBefore, ReadLines, Newlines, Replacements, ToNumeral;
    RenderKeepsPrefix(original, repl, l.offset);
    var text := Render(original, repl);
    assert text[l.offset] == text[..l.offset + 1][l.offset] == original[..l.offset + 1][l.offset];
    LinesBeforeLocal(text, original, l.offset, l.offset);
    RenderKeepsLines(original, repl);
  }

  /** What its edit comes to. */
  lemma EditAtRepair(files: Files, s: set<Location>, next: nat, l: Location)
    requires l in s && DistinctOffsets(s) && PointAtZeros(files, s)
    ensures var text := Render(files[l.file], Replacements(s, After(s, l), next, l.file));
            && l.offset < |text|
            && var edited := Edit(text, l.offset, ToNumeral(CodeOf(s, next, l)));
               && edited == Render(files[l.file], Replacements(s, After(s, l) + {l}, next, l.file))
               && ReadLines(edited) == ReadLines(files[l.file])
  {
    var done, original := After(s, l), files[l.file];
    ReplacementsAbove(s, next, l);
    ReplacementsAreNumerals(files, s, done + {l}, next, l.file);
    ReplacementsStep(s, done, next, l, l.file);
    hide Render, CodeOf, After, ReadLines, Newlines, Replacements, ToNumeral, Edit;
    EditIsReplacement(original, Replacements(s, done, next, l.file), l.offset, ToNumeral(CodeOf(s, next, l)));
    RenderKeepsLines(original, Replacements(s, done + {l}, next, l.file));
  }

  lemma RepairedUpdate(files: Files, s: set<Location>, done: set<Location>, next: nat, l: Location)
    requires done <= s && l in s && DistinctOffsets(s) && l.file in files
    ensures Repaired(files, s, done, next)[l.file := Render(files[l.file], Replacements(s, done + {l}, next, l.file))] ==
            Repaired(files, s, done + {l}, next)
  {
    hide Render, Replacements;
    forall f | f in files
      ensures f != l.file ==> Repaired(files, s, done, next)[f] == Repaired(files, s, done + {l}, next)[f]
    {
      ReplacementsStep(s, done, next, l, f);
    }
  }

  lemma ReplacementsAreNumerals(files: Files, s: set<Location>, done: set<Location>, next: nat, f: string)
    requires done <= s && DistinctOffsets(s) && PointAtZeros(files, s) && f in files
    ensures var repl := Replacements(s, done, next, f);
            forall k :: k in repl && k < |files[f]| ==> files[f][k] != '\n' && repl[k] != [] && '\n' !in repl[k]
  {
    var repl := Replacements(s, done, next, f);
    forall k | k in repl && k < |files[f]|
      ensures files[f][k] != '\n' && repl[k] != [] && '\n' !in repl[k]
    {
      var l :| l in done && l.file == f && l.offset == k;
      NumeralHasNoNewline(CodeOf(s, next, l));
    }
  }

  // ----- The repair as it runs -----

  /** What is in a file after `written` was written over its beginning without truncating it. */
  function Overwritten(old_: string, written: string): string {
    if |written| >= |old_| then written else written + old_[|written|..]
  }

  lemma EditNeverShrinks(text: string, off: nat, code: nat)
    requires off < |text|
    ensures Overwritten(text, Edit(text, off, ToNumeral(code))) == Edit(text, off, ToNumeral(code))
  {
    NumeralHasNoNewline(code);
  }

  datatype Outcome = Done | IndexError(at: Location)

  /**
    Replaces the zero codes among the errors.  The assertion that there is a zero never fails.
    The repair gets through exactly when `readlines` has a line for every location; then every
    file is its original text with only those zeros replaced.  If not, it stops at the last
    location without a line, with everything behind that repaired.
   */
  method ReplaceBadCodes(errors: seq<Location>, nextCode: nat, files: Files) returns (r: Outcome, files': Files)
    requires Parsed(errors) && forall i :: 0 <= i < |errors| ==> PointsAtCode(files, errors[i])
    requires DistinctOffsets(ZeroErrors(errors))
    ensures PointAtZeros(files, ZeroErrors(errors))
    ensures var s := ZeroErrors(errors);
            match r
            case Done => (forall l :: l in s ==> LineShown(files, l)) && files' == Repaired(files, s, s, nextCode)
            case IndexError(at) =>
              && at in s && !LineShown(files, at)
              && (forall l :: l in After(s, at) ==> LineShown(files, l))
              && files' == Repaired(files, s, After(s, at), nextCode)
  {
    hide Render, LinesBefore, ReadLines, ToNumeral, LocationLe, Progress, Replacements, After, Repaired, Edit, Overwritten,
      PointAtZeros, PointsAtCode, DistinctOffsets, LineShown;
    ghost var s := ZeroErrors(errors);
    ZeroErrorsPointAtZeros(files, errors);
    var todo, code := ZeroErrors(errors), nextCode;
    files' := files;
    ProgressStart(files, s, nextCode);
    while todo != {}
      invariant Progress(files, s, nextCode, todo, code, files')
      decreases todo
    {
      LastExists(todo);
      var l :| l in todo && forall o :: o in todo ==> LocationLe(o, l);
      ProgressFinds(files, s, nextCode, todo, code, files', l);
      var text := files'[l.file];
      var line := LinesBefore(text, l.offset);
      if line >= ReadLines(text) {
        return IndexError(l), files';
      }
      assert text[l.offset] == '0';
      ProgressStep(files, s, nextCode, todo, code, files', l);
      EditNeverShrinks(text, l.offset, code);
      files' := files'[l.file := Overwritten(text, Edit(text, l.offset, ToNumeral(code)))];
      assert line < ReadLines(files'[l.file]);    // the line is looked up once more
      todo := todo - {l};
      code := code + 1;
    }
    ProgressEnd(files, s, nextCode, code, files');
    r := Done;
  }

  /** The state of the repair with the locations of `todo` still to come. */
  ghost predicate Progress(files: Files, s: set<Location>, next: nat, todo: set<Location>, code: nat, files': Files) {
    && todo <= s && DistinctOffsets(s) && PointAtZeros(files, s)
    && code == next + |s - todo|
    && (forall d, t :: d in s - todo && t in todo ==> LocationLe(t, d))
    && (forall l :: l in s - todo ==> LineShown(files, l))
    && files' == Repaired(files, s, s - todo, next)
  }

  lemma ProgressStart(files: Files, s: set<Location>, next: nat)
    requires DistinctOffsets(s) && PointAtZeros(files, s)
    ensures Progress(files, s, next, s, next, files)
  {
    assert s - s == {};
    RepairedNothing(files, s, next);
  }

  lemma ProgressEnd(files: Files, s: set<Location>, next: nat, code: nat, files': Files)
    requires Progress(files, s, next, {}, code, files')
    ensures (forall l :: l in s ==> l.file in files && l.offset < |files[l.file]| && LineShown(files, l))
    ensures files' == Repaired(files, s, s, next)
  {
    assert s - {} == s;
  }

  /** What the next location finds in its file. */
  lemma ProgressFinds(files: Files, s: set<Location>, next: nat, todo: set<Location>, code: nat, files': Files, l: Location)
    requires Progress(files, s, next, todo, code, files') && IsLast(todo, l)
    ensures l in s && DistinctOffsets(s) && l.file in files && l.offset < |files[l.file]| && l.file in files'
    ensures var text := files'[l.file];
            && l.offset < |text| && text[l.offset] == '0'
            && (LineShown(files, l) <==> LinesBefore(text, l.offset) < ReadLines(text))
            && ReadLines(Edit(text, l.offset, ToNumeral(code))) == ReadLines(text)
            && Edit(text, l.offset, ToNumeral(code)) == Render(files[l.file], Replacements(s, After(s, l) + {l}, next, l.file))
    ensures (forall o :: o in After(s, l) ==> o.file in files && o.offset < |files[o.file]| && LineShown(files, o))
    ensures files' == Repaired(files, s, After(s, l), next)
  {
    AfterLast(s, todo, l);
    TextAtRepair(files, s, next, l);
    EditAtRepair(files, s, next, l);
    hide Render, LinesBefore, ReadLines, ToNumeral, LocationLe, Replacements, After;
    assert CodeOf(s, next, l) == code;
  }

  /** Its edit is one more step of the repair. */
  lemma ProgressStep(files: Files, s: set<Location>, next: nat, todo: set<Location>, code: nat, files': Files, l: Location)
    requires Progress(files, s, next, todo, code, files') && IsLast(todo, l)
    requires l.file in files && l.offset < |files[l.file]| && LineShown(files, l) && l in s && DistinctOffsets(s)
    ensures Progress(files, s, next, todo - {l}, code + 1,
                     files'[l.file := Render(files[l.file], Replacements(s, After(s, l) + {l}, next, l.file))])
  {
    AfterLast(s, todo, l);
    RepairedUpdate(files, s, s - todo, next, l);
    hide Render, LinesBefore, ReadLines, ToNumeral, LocationLe, Replacements, After, Repaired, LineShown;
    DoneGrows(s, todo, l);
  }

  lemma DoneGrows(s: set<Location>, todo: set<Location>, l: Location)
    requires todo <= s && l in todo
    ensures (s - todo) + {l} == s - (todo - {l}) && |s - (todo - {l})| == |s - todo| + 1
  {
    assert (s - todo) + {l} == s - (todo - {l});
  }

  lemma RepairedNothing(files: Files, s: set<Location>, next: nat)
    requires DistinctOffsets(s)
    ensures Repaired(files, s, {}, next) == files
  {
    forall f | f in files
      ensures Repaired(files, s, {}, next)[f] == files[f]
    {
      RenderUntouched(files[f], Replacements(s, {}, next, f));
    }
  }

  // ----- When the repair gets through -----

  /** Files without lone carriage returns always get through. */
  lemma WithoutLoneReturnsDone(files: Files, l: Location)
    requires l.file in files && l.offset < |files[l.file]| && NoLoneReturn(files[l.file])
    ensures LineShown(files, l)
  {
    LineIndexInBounds(files[l.file], l.offset);
  }

  const RETURN_TEXT := "\ruassert(0"
  const RETURN_FILES: Files := map["f" := RETURN_TEXT]
  const RETURN_ZERO := Location("f", 9, "uassert(0", "0")

  lemma ReturnTextIsParsed()
    ensures Parsed([RETURN_ZERO]) && ToInt("0") == 0 && PointsAtCode(RETURN_FILES, RETURN_ZERO)
    ensures !LineShown(RETURN_FILES, RETURN_ZERO)
  {
    assert "0"[..0] == [];
    assert RETURN_TEXT[9..10] == "0";
    LoneReturnIsOutOfBounds(RETURN_TEXT, 9);
  }

  /** A lone carriage return can stop the repair before it has repaired anything. */
  method LoneReturnStopsRepair(nextCode: nat) returns (r: Outcome, files': Files)
    ensures r == IndexError(RETURN_ZERO) && files' == RETURN_FILES
  {
    ReturnTextIsParsed();
    hide ToInt, LineShown, Repaired, PointsAtCode;
    ghost var s := ZeroErrors([RETURN_ZERO]);
    assert s == {RETURN_ZERO} by {
      assert [RETURN_ZERO][0] == RETURN_ZERO;
    }
    assert After(s, RETURN_ZERO) == {};
    r, files' := ReplaceBadCodes([RETURN_ZERO], nextCode, RETURN_FILES);
    RepairedNothing(RETURN_FILES, s, nextCode);
  }

  // ----- The new codes are new -----

  lemma AfterShrinks(s: set<Location>, a: Location, b: Location)
    requires a in s && b in s && a != b && LocationLe(a, b)
    ensures |After(s, b)| < |After(s, a)|
  {
    forall o | o in After(s, b)
      ensures o in After(s, a)
    {
      LocationLeTransitive(a, b, o);
      if o == a {
        LocationLeAntisymmetric(a, b);
      }
    }
    assert b in After(s, a) && b !in After(s, b);
    SmallerSubset(After(s, b), After(s, a), b);
  }

  lemma SmallerSubset<T>(a: set<T>, b: set<T>, x: T)
    requires a <= b && x in b && x !in a
    ensures |a| < |b|
  {
    assert a <= b - {x};
    SubsetSize(a, b - {x});
  }

  lemma {:induction false} SubsetSize<T>(a: set<T>, b: set<T>)
    requires a <= b
    ensures |a| <= |b|
  {
    if a != {} {
      var x :| x in a;
      SubsetSize(a - {x}, b - {x});
    }
  }

  /** No two locations get the same code, and none gets a code at or below `next - 1`. */
  lemma NewCodesAreDistinct(s: set<Location>, next: nat, a: Location, b: Location)
    requires a in s && b in s && a != b
    ensures CodeOf(s, next, a) != CodeOf(s, next, b) && CodeOf(s, next, a) >= next
    ensures ToNumeral(CodeOf(s, next, a)) != ToNumeral(CodeOf(s, next, b))
  {
    LocationLeTotal(a, b);
    if LocationLe(a, b) {
      AfterShrinks(s, a, b);
    } else {
      AfterShrinks(s, b, a);
    }
    NumeralRoundTrip(CodeOf(s, next, a));
    NumeralRoundTrip(CodeOf(s, next, b));
  }

  /** `a` stands in front of `b`: in the same file, or in one whose name comes first. */
  ghost predicate InFrontOf(a: Location, b: Location) {
    if a.file == b.file then a.offset < b.offset
    else a.file <= b.file || exists k: nat :: SmallerAt(a.file, b.file, k)
  }

  /** Later locations get smaller codes, and all codes are among the next ones, as many as there are locations. */
  lemma CodesFollowLocations(s: set<Location>, next: nat, a: Location, b: Location)
    requires a in s && b in s && InFrontOf(a, b)
    ensures next <= CodeOf(s, next, b) < CodeOf(s, next, a) < next + |s|
  {
    NameLeIsLexicographic(a.file, b.file);
    AfterShrinks(s, a, b);
    SmallerSubset(After(s, a), s, a);
  }

  // ----- From the parsed locations to the repaired files -----

  /** The locations with a zero code. */
  function ZeroLocations(locs: seq<Location>): set<Location> {
    set i | 0 <= i < |locs| && locs[i].code == "0" :: locs[i]
  }

  lemma ZeroErrorsAreZeroLocations(locs: seq<Location>, errors: seq<Location>)
    requires Parsed(locs) && Parsed(errors) && AreErrors(locs, errors)
    requires forall i :: 0 <= i < |locs| && ToInt(locs[i].code) == 0 ==> locs[i].code == "0"
    ensures ZeroErrors(errors) == ZeroLocations(locs)
  {
    assert ToInt("0") == 0 by {
      assert "0"[..0] == [];
    }
    forall e | e in ZeroLocations(locs)
      ensures e in ZeroErrors(errors)
    {
      var i :| 0 <= i < |locs| && locs[i].code == "0" && locs[i] == e;
      EveryZeroIsReported(locs, errors, i);
      var k :| 0 <= k < |errors| && errors[k] == e;
    }
    forall e | e in ZeroErrors(errors)
      ensures e in ZeroLocations(locs)
    {
      assert e in errors;
      var i :| 0 <= i < |locs| && locs[i] == e;
    }
  }

  lemma ErrorsParsed(locs: seq<Location>, errors: seq<Location>)
    requires Parsed(locs) && AreErrors(locs, errors)
    ensures Parsed(errors)
  {
    forall k | 0 <= k < |errors|
      ensures IsNumeral(errors[k].code)
    {
      assert errors[k] in errors;
      var i :| 0 <= i < |locs| && locs[i] == errors[k];
    }
  }

  lemma ErrorsPointAtCode(locs: seq<Location>, errors: seq<Location>, files: Files)
    requires Parsed(locs) && AreErrors(locs, errors)
    requires forall i :: 0 <= i < |locs| ==> PointsAtCode(files, locs[i])
    ensures forall k :: 0 <= k < |errors| ==> PointsAtCode(files, errors[k])
  {
    forall k | 0 <= k < |errors|
      ensures PointsAtCode(files, errors[k])
    {
      assert errors[k] in errors;
      var i :| 0 <= i < |locs| && locs[i] == errors[k];
    }
  }

  /**
    Checking and fixing in one go.  With two locations or more, zero codes spelled "0" at
    distinct offsets and no lone carriage returns, every zero in every file, and nothing else, is
    replaced by a code that is larger than all codes there were.
   */
  method FixZeroCodes(locs: seq<Location>, files: Files) returns (files': Files, next: nat)
    requires Parsed(locs) && |locs| >= 2
    requires forall i :: 0 <= i < |locs| && ToInt(locs[i].code) == 0 ==> locs[i].code == "0"
    requires forall i :: 0 <= i < |locs| ==> PointsAtCode(files, locs[i])
    requires DistinctOffsets(ZeroLocations(locs))
    requires forall f :: f in files ==> NoLoneReturn(files[f])
    ensures forall i :: 0 <= i < |locs| ==> ToInt(locs[i].code) < next
    ensures files' == Repaired(files, ZeroLocations(locs), ZeroLocations(locs), next)
  {
    var checker := new Checker();
    var errors := checker.ReadErrorCodes(locs);
    assert checker.codes == locs;
    ErrorsParsed(locs, errors);
    ErrorsPointAtCode(locs, errors, files);
    var n := GetNextCode(checker.codes);
    next := n.code;
    ZeroErrorsAreZeroLocations(locs, errors);
    var outcome;
    outcome, files' := ReplaceBadCodes(errors, next, files);
    if outcome.IndexError? {
      WithoutLoneReturnsDone(files, outcome.at);
    }
  }
}
