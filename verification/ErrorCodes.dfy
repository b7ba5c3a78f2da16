/** Finding duplicate, missing and excessive assertion codes in one pass over the parsed locations. */
module ErrorCodes {

  const MAXIMUM_CODE := 51999

  datatype Location = Location(file: string, offset: nat, lines: string, code: string)

  // ----- Decimal numbers -----

  predicate IsDigit(c: char) {
    '0' <= c <= '9'
  }

  predicate IsNumeral(s: string) {
    s != [] && forall i :: 0 <= i < |s| ==> IsDigit(s[i])
  }

  /** `int(s)` */
  function ToInt(s: string): nat
    requires forall i :: 0 <= i < |s| ==> IsDigit(s[i])
  {
    if s == [] then 0
    else
      var last := s[|s| - 1];
      assert IsDigit(last);
      10 * ToInt(s[..|s| - 1]) + (last as int - '0' as int)
  }

  /** `str(n)` */
  function ToNumeral(n: nat): (s: string)
    ensures IsNumeral(s)
  {
    var digit := ('0' as int + n % 10) as char;
    if n < 10 then [digit] else ToNumeral(n / 10) + [digit]
  }

  /** Printing a number and reading it back gives the number; so distinct numbers print differently. */
  lemma {:induction false} NumeralRoundTrip(n: nat)
    ensures ToInt(ToNumeral(n)) == n
  {
    var s := ToNumeral(n);
    if n < 10 {
      assert s[..0] == [];
    } else {
      NumeralRoundTrip(n / 10);
      assert s[..|s| - 1] == ToNumeral(n / 10);
    }
  }

  /** A numeral for zero starts with one. */
  lemma {:induction false} ZeroStartsWithZero(s: string)
    requires IsNumeral(s) && ToInt(s) == 0
    ensures s[0] == '0'
  {
    if |s| > 1 {
      ZeroStartsWithZero(s[..|s| - 1]);
    } else {
      assert s[..0] == [];
    }
  }

  lemma ToIntSnoc(s: string, c: char)
    requires (forall i :: 0 <= i < |s| ==> IsDigit(s[i])) && IsDigit(c)
    ensures forall i :: 0 <= i < |s + [c]| ==> IsDigit((s + [c])[i])
    ensures ToInt(s + [c]) == 10 * ToInt(s) + (c as int - '0' as int)
  {
    assert (s + [c])[..|s|] == s;
  }

  lemma {:induction false} NumeralHasNoLeadingZero(n: nat)
    ensures |ToNumeral(n)| == 1 || ToNumeral(n)[0] != '0'
  {
    if n >= 10 {
      NumeralHasNoLeadingZero(n / 10);
      if |ToNumeral(n / 10)| == 1 {
        assert n / 10 < 10;
      }
    }
  }

  /** Reading a numeral and printing the number gives the numeral exactly when it has no leading zero. */
  lemma {:induction false} NumeralIsPrintedIff(s: string)
    requires IsNumeral(s)
    ensures ToNumeral(ToInt(s)) == s <==> |s| == 1 || s[0] != '0'
  {
    NumeralHasNoLeadingZero(ToInt(s));
    var init, last := s[..|s| - 1], s[|s| - 1];
    assert s == init + [last] && IsDigit(last);
    hide ToInt;
    ToIntSnoc(init, last);
    if |s| == 1 {
      NothingIsZero();
    } else if s[0] != '0' {
      NumeralIsPrintedIff(init);
      PositiveIfNotZero(init);
    }
  }

  lemma NothingIsZero()
    ensures ToInt("") == 0
  {
  }

  lemma PositiveIfNotZero(s: string)
    requires IsNumeral(s) && s[0] != '0'
    ensures ToInt(s) > 0
  {
    if ToInt(s) == 0 {
      ZeroStartsWithZero(s);
    }
  }

  // ----- What is wrong with a location -----

  ghost predicate Parsed(locs: seq<Location>) {
    forall i :: 0 <= i < |locs| ==> IsNumeral(locs[i].code)
  }

  ghost predicate FirstWithCode(locs: seq<Location>, i: nat)
    requires i < |locs|
  {
    forall j :: 0 <= j < i ==> locs[j].code != locs[i].code
  }

  /** Another of the first `n` locations has the same code. */
  ghost predicate Repeated(locs: seq<Location>, n: nat, i: nat)
    requires i < n <= |locs|
  {
    exists j :: 0 <= j < n && j != i && locs[j].code == locs[i].code
  }

  ghost predicate Excessive(locs: seq<Location>, i: nat)
    requires i < |locs| && Parsed(locs)
  {
    FirstWithCode(locs, i) && ToInt(locs[i].code) > MAXIMUM_CODE
  }

  ghost predicate Flagged(locs: seq<Location>, n: nat, i: nat)
    requires i < n <= |locs| && Parsed(locs)
  {
    Repeated(locs, n, i) || Excessive(locs, i)
  }

  /** `errors` mentions exactly the flagged ones among the first `n` locations. */
  ghost predicate Reports(locs: seq<Location>, n: nat, errors: seq<Location>)
    requires n <= |locs| && Parsed(locs)
  {
    && (forall i :: 0 <= i < n && Flagged(locs, n, i) ==> locs[i] in errors)
    && (forall e :: e in errors ==> exists i :: 0 <= i < n && locs[i] == e && Flagged(locs, n, i))
  }

  /** `seen` maps every code of the first `n` locations to the first location that has it. */
  ghost predicate Seen(locs: seq<Location>, n: nat, seen: map<string, nat>)
    requires n <= |locs|
  {
    && (forall i :: 0 <= i < n ==> locs[i].code in seen)
    && (forall c :: c in seen ==> seen[c] < n && locs[seen[c]].code == c && FirstWithCode(locs, seen[c]))
  }

  lemma ReportsFresh(locs: seq<Location>, n: nat, errors: seq<Location>, errors': seq<Location>)
    requires Parsed(locs) && n < |locs| && Reports(locs, n, errors) && FirstWithCode(locs, n)
    requires errors' == errors + if ToInt(locs[n].code) > MAXIMUM_CODE then [locs[n]] else []
    ensures Reports(locs, n + 1, errors')
  {
    forall i | 0 <= i < n
      ensures Repeated(locs, n + 1, i) <==> Repeated(locs, n, i)
    {
      assert locs[i].code != locs[n].code;
    }
    assert !Repeated(locs, n + 1, n);
    forall e | e in errors'
      ensures exists i :: 0 <= i < n + 1 && locs[i] == e && Flagged(locs, n + 1, i)
    {
      if e in errors {
        var i :| 0 <= i < n && locs[i] == e && Flagged(locs, n, i);
        assert Flagged(locs, n + 1, i);
      } else {
        assert Flagged(locs, n + 1, n);
      }
    }
  }

  lemma ReportsDuplicate(locs: seq<Location>, n: nat, f: nat, errors: seq<Location>, errors': seq<Location>)
    requires Parsed(locs) && f < n < |locs| && Reports(locs, n, errors)
    requires locs[f].code == locs[n].code && FirstWithCode(locs, f)
    requires errors' == errors + (if Repeated(locs, n, f) then [] else [locs[f]]) + [locs[n]]
    ensures Reports(locs, n + 1, errors')
  {
    assert Repeated(locs, n + 1, f);
    assert Repeated(locs, n + 1, n);
    assert !FirstWithCode(locs, n);
    forall i | 0 <= i < n && Flagged(locs, n + 1, i)
      ensures locs[i] in errors'
    {
      if i == f {
        assert Repeated(locs, n, f) ==> locs[f] in errors;
      } else if Repeated(locs, n + 1, i) {
        var j :| 0 <= j < n + 1 && j != i && locs[j].code == locs[i].code;
        assert locs[if j == n then f else j].code == locs[i].code;
        assert Repeated(locs, n, i);
      }
    }
    forall e | e in errors'
      ensures exists i :: 0 <= i < n + 1 && locs[i] == e && Flagged(locs, n + 1, i)
    {
      if e in errors {
        var i :| 0 <= i < n && locs[i] == e && Flagged(locs, n, i);
        assert Flagged(locs, n + 1, i);
      }
    }
  }

  // ----- The list of errors -----

  /** The first location with the code, or the number of locations. */
  function First(locs: seq<Location>, code: string): (r: nat)
    ensures r <= |locs| && (r < |locs| ==> locs[r].code == code)
    ensures forall j :: 0 <= j < r ==> locs[j].code != code
  {
    if locs == [] || locs[0].code == code then 0 else 1 + First(locs[1..], code)
  }

  /**
    What location `n` adds: itself if its code is new and too large, or not new; and in front of
    it the location it repeats, if that had not been repeated before.
   */
  ghost function AddedErrors(locs: seq<Location>, n: nat): seq<Location>
    requires n < |locs| && Parsed(locs)
  {
    var first := First(locs, locs[n].code);
    if first == n then if ToInt(locs[n].code) > MAXIMUM_CODE then [locs[n]] else []
    else (if Repeated(locs, n, first) then [] else [locs[first]]) + [locs[n]]
  }

  ghost function ErrorList(locs: seq<Location>, n: nat): seq<Location>
    requires n <= |locs| && Parsed(locs)
  {
    if n == 0 then [] else ErrorList(locs, n - 1) + AddedErrors(locs, n - 1)
  }

  /** The whole list: what the locations add in turn, and the first zero code at its end. */
  ghost function AllErrors(locs: seq<Location>): seq<Location>
    requires Parsed(locs)
  {
    var zero := First(locs, "0");
    ErrorList(locs, |locs|) + if zero < |locs| then [locs[zero]] else []
  }

  lemma AddedFresh(locs: seq<Location>, n: nat)
    requires n < |locs| && Parsed(locs) && FirstWithCode(locs, n)
    ensures AddedErrors(locs, n) == if ToInt(locs[n].code) > MAXIMUM_CODE then [locs[n]] else []
  {
    assert First(locs, locs[n].code) == n;
  }

  lemma AddedDuplicate(locs: seq<Location>, n: nat, first: nat)
    requires first < n < |locs| && Parsed(locs) && FirstWithCode(locs, first) && locs[first].code == locs[n].code
    ensures AddedErrors(locs, n) == (if Repeated(locs, n, first) then [] else [locs[first]]) + [locs[n]]
  {
    assert First(locs, locs[n].code) == first;
  }

  lemma SeenFirst(locs: seq<Location>, seen: map<string, nat>, code: string)
    requires Seen(locs, |locs|, seen)
    ensures if code in seen then seen[code] == First(locs, code) < |locs| else First(locs, code) == |locs|
  {
    if code in seen {
      assert FirstWithCode(locs, seen[code]);
    }
  }

  /** The state of the pass after `n` locations; `dups` are the codes seen more than once. */
  ghost predicate Passed(locs: seq<Location>, n: nat, seen: map<string, nat>, dups: set<string>, errors: seq<Location>)
    requires n <= |locs| && Parsed(locs)
  {
    && Seen(locs, n, seen)
    && Reports(locs, n, errors) && errors == ErrorList(locs, n)
    && forall c :: c in dups <==> c in seen && Repeated(locs, n, seen[c])
  }

  lemma PassedStart(locs: seq<Location>)
    requires Parsed(locs)
    ensures Passed(locs, 0, map[], {}, [])
  {
  }

  lemma SeenBefore(locs: seq<Location>, n: nat, seen: map<string, nat>, dups: set<string>, errors: seq<Location>)
    requires n <= |locs| && Parsed(locs) && Passed(locs, n, seen, dups, errors)
    ensures forall c :: c in seen ==> seen[c] < n
  {
  }

  lemma PassedFresh(locs: seq<Location>, n: nat, seen: map<string, nat>, dups: set<string>,
                    errors: seq<Location>, errors': seq<Location>)
    requires Parsed(locs) && n < |locs| && Passed(locs, n, seen, dups, errors) && locs[n].code !in seen
    requires errors' == errors + if ToInt(locs[n].code) > MAXIMUM_CODE then [locs[n]] else []
    ensures Passed(locs, n + 1, seen[locs[n].code := n], dups, errors')
  {
    hide Reports, AddedErrors, First;
    assert FirstWithCode(locs, n);
    AddedFresh(locs, n);
    ReportsFresh(locs, n, errors, errors');
    assert !Repeated(locs, n + 1, n);
    forall c | c in seen
      ensures Repeated(locs, n + 1, seen[c]) <==> Repeated(locs, n, seen[c])
    {
    }
  }

  lemma AppendTwice(a: seq<Location>, b: seq<Location>, c: seq<Location>)
    ensures a + b + c == a + (b + c)
  {
  }

  lemma PassedDuplicate(locs: seq<Location>, n: nat, seen: map<string, nat>, dups: set<string>,
                        errors: seq<Location>, errors': seq<Location>)
    requires Parsed(locs) && n < |locs| && Passed(locs, n, seen, dups, errors) && locs[n].code in seen
    requires errors' == errors + (if locs[n].code in dups then [] else [locs[seen[locs[n].code]]]) + [locs[n]]
    ensures Passed(locs, n + 1, seen, dups + {locs[n].code}, errors')
  {
    hide Reports, AddedErrors, First;
    var first := seen[locs[n].code];
    AddedDuplicate(locs, n, first);
    AppendTwice(errors, if locs[n].code in dups then [] else [locs[first]], [locs[n]]);
    ReportsDuplicate(locs, n, first, errors, errors');
    assert Repeated(locs, n + 1, first);
    forall c | c in seen && c != locs[n].code
      ensures Repeated(locs, n + 1, seen[c]) <==> Repeated(locs, n, seen[c])
    {
    }
  }

  /** The errors of a whole pass: the flagged locations and the first zero code. */
  ghost predicate AreErrors(locs: seq<Location>, errors: seq<Location>)
    requires Parsed(locs)
  {
    forall e :: e in errors <==> IsError(locs, e)
  }

  ghost predicate IsError(locs: seq<Location>, e: Location)
    requires Parsed(locs)
  {
    exists i :: 0 <= i < |locs| && locs[i] == e
                && (Flagged(locs, |locs|, i) || (e.code == "0" && FirstWithCode(locs, i)))
  }

  class Checker {
    var codes: seq<Location>    // the global list that the next code is computed from

    constructor ()
      ensures codes == []
    {
      codes := [];
    }

    /** One pass over the locations in the order they were parsed. */
    method ReadErrorCodes(locs: seq<Location>) returns (errors: seq<Location>)
      requires Parsed(locs)
      modifies this
      ensures codes == old(codes) + locs
      ensures errors == AllErrors(locs) && AreErrors(locs, errors)
    {
      hide Passed, AreErrors, AllErrors, ToInt;
      var seen: map<string, nat> := map[];
      var dups: set<string> := {};
      errors := [];
      PassedStart(locs);
      for n := 0 to |locs|
        invariant codes == old(codes) + locs[..n]
        invariant Passed(locs, n, seen, dups, errors)
      {
        var loc := locs[n];
        codes := codes + [loc];
        SeenBefore(locs, n, seen, dups, errors);
        ghost var seen0, dups0, errors0 := seen, dups, errors;
        if loc.code !in seen {
          seen := seen[loc.code := n];
          if ToInt(loc.code) > MAXIMUM_CODE {
            errors := errors + [loc];
          }
          PassedFresh(locs, n, seen0, dups0, errors0, errors);
        } else {
          if loc.code !in dups {
            errors := errors + [locs[seen[loc.code]]];
          }
          dups := dups + {loc.code};
          errors := errors + [loc];
          PassedDuplicate(locs, n, seen0, dups0, errors0, errors);
        }
      }
      assert locs[..|locs|] == locs;
      ghost var flagged := errors;
      SeenBefore(locs, |locs|, seen, dups, errors);
      if "0" in seen {
        errors := errors + [locs[seen["0"]]];
      }
      ErrorsAre(locs, seen, dups, flagged, errors);
    }
  }

  lemma ErrorsAre(locs: seq<Location>, seen: map<string, nat>, dups: set<string>, flagged: seq<Location>, errors: seq<Location>)
    requires Parsed(locs) && Passed(locs, |locs|, seen, dups, flagged)
    requires errors == flagged + if "0" in seen then [locs[seen["0"]]] else []
    ensures errors == AllErrors(locs) && AreErrors(locs, errors)
  {
    hide Repeated, ErrorList, First;
    SeenFirst(locs, seen, "0");
    hide Seen;
    forall e
      ensures e in errors <==> IsError(locs, e)
    {
      if IsError(locs, e) {
        var i :| 0 <= i < |locs| && locs[i] == e && (Flagged(locs, |locs|, i) || (e.code == "0" && FirstWithCode(locs, i)));
        if e.code == "0" && FirstWithCode(locs, i) {
          FirstIsUnique(locs, i);
        }
      }
      if e in flagged {
        var i :| 0 <= i < |locs| && locs[i] == e && Flagged(locs, |locs|, i);
      }
    }
  }

  lemma FirstIsUnique(locs: seq<Location>, i: nat)
    requires i < |locs| && FirstWithCode(locs, i)
    ensures First(locs, locs[i].code) == i
  {
  }

  /** A pass reports nothing exactly when the codes are pairwise distinct, none is zero and none is too large. */
  lemma NoErrorsIffClean(locs: seq<Location>, errors: seq<Location>)
    requires Parsed(locs) && AreErrors(locs, errors)
    ensures errors == [] <==>
            && (forall i, j :: 0 <= i < j < |locs| ==> locs[i].code != locs[j].code)
            && (forall i :: 0 <= i < |locs| ==> locs[i].code != "0" && ToInt(locs[i].code) <= MAXIMUM_CODE)
  {
    if errors == [] {
      forall i | 0 <= i < |locs|
        ensures !Flagged(locs, |locs|, i) && !(locs[i].code == "0" && FirstWithCode(locs, i))
      {
        assert locs[i] !in errors;
      }
      forall i, j | 0 <= i < j < |locs|
        ensures locs[i].code != locs[j].code
      {
        assert !Repeated(locs, |locs|, i);
      }
    } else {
      assert errors[0] in errors;
    }
  }

  /** Every location with code "0" is among the errors, however many there are. */
  lemma EveryZeroIsReported(locs: seq<Location>, errors: seq<Location>, i: nat)
    requires Parsed(locs) && AreErrors(locs, errors) && i < |locs| && locs[i].code == "0"
    ensures locs[i] in errors
  {
    if !FirstWithCode(locs, i) {
      assert Repeated(locs, |locs|, i);
    }
  }

  // ----- The next code -----

  datatype NextCode = Next(code: nat) | TypeError

  function Highest(codes: seq<Location>): nat
    requires Parsed(codes)
  {
    if codes == [] then 0
    else
      var rest, last := Highest(codes[..|codes| - 1]), ToInt(codes[|codes| - 1].code);
      if last > rest then last else rest
  }

  lemma NothingHighest()
    ensures Highest([]) == 0
  {
  }

  lemma {:induction false} HighestIsHighest(codes: seq<Location>)
    requires Parsed(codes)
    ensures forall i :: 0 <= i < |codes| ==> ToInt(codes[i].code) <= Highest(codes)
  {
    hide ToInt, IsNumeral;
    if codes != [] {
      var init := codes[..|codes| - 1];
      HighestIsHighest(init);
      assert forall i :: 0 <= i < |init| ==> codes[i] == init[i];
    }
  }

  lemma HighestStep(codes: seq<Location>, n: nat)
    requires Parsed(codes) && n < |codes|
    ensures var rest, last := Highest(codes[..n]), ToInt(codes[n].code);
            Highest(codes[..n + 1]) == if last > rest then last else rest
  {
    hide ToInt;
    assert codes[..n + 1][..n] == codes[..n];
  }

  /**
    `reduce` without a start value fails on an empty list, and hands back a single element as the
    string it is, to which one cannot be added: both are type errors.
   */
  method GetNextCode(codes: seq<Location>) returns (r: NextCode)
    requires Parsed(codes)
    ensures r.TypeError? <==> |codes| < 2
    ensures r.Next? ==> r.code == Highest(codes) + 1 && forall i :: 0 <= i < |codes| ==> ToInt(codes[i].code) < r.code
  {
    if |codes| < 2 {
      return TypeError;
    }
    hide ToInt, Highest, IsNumeral;
    var highest := 0;
    NothingHighest();
    for n := 0 to |codes|
      invariant highest == Highest(codes[..n])
    {
      var code := ToInt(codes[n].code);
      if code > highest {
        highest := code;
      }
      HighestStep(codes, n);
    }
    assert codes[..|codes|] == codes;
    HighestIsHighest(codes);
    r := Next(highest + 1);
  }
}
