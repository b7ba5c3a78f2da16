/** Report entries and their sum: counts add up, date ranges join, and differing components become wildcards. */
module ReportEntries {
  import opened Sequences

  datatype Component = Test | Task | Variant | Distro

  /** A component of an entry: a name, an unknown value, or a stand-in for several values. */
  datatype Value = Name(name: string) | Missing(kind: string) | Wildcard(kind: string)

  datatype Entry = Entry(
    test: Value, task: Value, variant: Value, distro: Value,
    startDate: int, endDate: int, numPass: int, numFail: int)

  /** Dates are proleptic Gregorian ordinals, as `date.toordinal` gives them. */
  const MIN_DATE := 1          // 0001-01-01
  const MAX_DATE := 3652059    // 9999-12-31

  predicate ValidDates(e: Entry) {
    MIN_DATE <= e.startDate <= MAX_DATE && MIN_DATE <= e.endDate <= MAX_DATE
  }

  function Field(e: Entry, c: Component): Value {
    match c
    case Test => e.test
    case Task => e.task
    case Variant => e.variant
    case Distro => e.distro
  }

  function Multiple(c: Component): Value {
    match c
    case Test => Wildcard("tests")
    case Task => Wildcard("tasks")
    case Variant => Wildcard("variants")
    case Distro => Wildcard("distros")
  }

  function Min(a: int, b: int): int {
    if a < b then a else b
  }

  function Max(a: int, b: int): int {
    if a > b then a else b
  }

  // ----- The sum -----

  /** The value that all entries share, or the wildcard. */
  function Common(es: seq<Entry>, c: Component): Value {
    if es != [] && forall i :: 0 <= i < |es| ==> Field(es[i], c) == Field(es[0], c) then Field(es[0], c)
    else Multiple(c)
  }

  function FirstStart(es: seq<Entry>): int {
    if es == [] then MAX_DATE else Min(es[|es| - 1].startDate, FirstStart(es[..|es| - 1]))
  }

  function LastEnd(es: seq<Entry>): int {
    if es == [] then MIN_DATE else Max(es[|es| - 1].endDate, LastEnd(es[..|es| - 1]))
  }

  function Passes(es: seq<Entry>): int {
    if es == [] then 0 else Passes(es[..|es| - 1]) + es[|es| - 1].numPass
  }

  function Fails(es: seq<Entry>): int {
    if es == [] then 0 else Fails(es[..|es| - 1]) + es[|es| - 1].numFail
  }

  function Sum(es: seq<Entry>): Entry {
    Entry(Common(es, Test), Common(es, Task), Common(es, Variant), Common(es, Distro),
          FirstStart(es), LastEnd(es), Passes(es), Fails(es))
  }

  /** What a set of collected values comes to. */
  method OnlyElement(values: set<Value>, c: Component, ghost es: seq<Entry>) returns (v: Value)
    requires values == set i | 0 <= i < |es| :: Field(es[i], c)
    ensures v == Common(es, c)
  {
    assert forall i :: 0 <= i < |es| ==> Field(es[i], c) in values;
    if es != [] && forall i :: 0 <= i < |es| ==> Field(es[i], c) == Field(es[0], c) {
      assert values == {Field(es[0], c)};
    }
    if |values| == 1 {
      v :| v in values;
      assert values == {v} by {
        assert |values - {v}| == 0;
      }
    } else {
      v := Multiple(c);
    }
  }

  method SumEntries(es: seq<Entry>) returns (r: Entry)
    ensures r == Sum(es)
  {
    var tests: set<Value>, tasks: set<Value>, variants: set<Value>, distros: set<Value> := {}, {}, {}, {};
    var startDate, endDate, numPass, numFail := MAX_DATE, MIN_DATE, 0, 0;
    for n := 0 to |es|
      invariant tests == set i | 0 <= i < n :: Field(es[i], Test)
      invariant tasks == set i | 0 <= i < n :: Field(es[i], Task)
      invariant variants == set i | 0 <= i < n :: Field(es[i], Variant)
      invariant distros == set i | 0 <= i < n :: Field(es[i], Distro)
      invariant startDate == FirstStart(es[..n]) && endDate == LastEnd(es[..n])
      invariant numPass == Passes(es[..n]) && numFail == Fails(es[..n])
    {
      var entry := es[n];
      tests := tests + {entry.test};
      tasks := tasks + {entry.task};
      variants := variants + {entry.variant};
      distros := distros + {entry.distro};
      startDate := Min(entry.startDate, startDate);
      endDate := Max(entry.endDate, endDate);
      numPass := numPass + entry.numPass;
      numFail := numFail + entry.numFail;
      assert es[..n + 1][..n] == es[..n];
    }
    assert es[..|es|] == es;
    var test := OnlyElement(tests, Test, es);
    var task := OnlyElement(tasks, Task, es);
    var variant := OnlyElement(variants, Variant, es);
    var distro := OnlyElement(distros, Distro, es);
    r := Entry(test, task, variant, distro, startDate, endDate, numPass, numFail);
  }

  // ----- Sums of concatenations and permutations -----

  lemma {:induction false} NumbersConcat(a: seq<Entry>, b: seq<Entry>)
    requires forall e :: e in a || e in b ==> ValidDates(e)
    ensures FirstStart(a + b) == Min(FirstStart(a), FirstStart(b))
    ensures LastEnd(a + b) == Max(LastEnd(a), LastEnd(b))
    ensures Passes(a + b) == Passes(a) + Passes(b)
    ensures Fails(a + b) == Fails(a) + Fails(b)
  {
    if b == [] {
      assert a + b == a;
      DatesBounded(a);
    } else {
      var c, init := a + b, b[..|b| - 1];
      NumbersConcat(a, init);
      assert c[..|c| - 1] == a + init && c[|c| - 1] == b[|b| - 1];
    }
  }

  lemma {:induction false} DatesBounded(es: seq<Entry>)
    requires forall e :: e in es ==> ValidDates(e)
    ensures MIN_DATE <= FirstStart(es) <= MAX_DATE && MIN_DATE <= LastEnd(es) <= MAX_DATE
    ensures forall e :: e in es ==> FirstStart(es) <= e.startDate && e.endDate <= LastEnd(es)
    ensures es != [] ==> exists e :: e in es && e.startDate == FirstStart(es)
  {
    if es != [] {
      var init, last := es[..|es| - 1], es[|es| - 1];
      DatesBounded(init);
      assert es == init + [last];
      assert last in es;
    }
  }

  lemma NumbersOne(e: Entry)
    requires ValidDates(e)
    ensures FirstStart([e]) == e.startDate && LastEnd([e]) == e.endDate && Passes([e]) == e.numPass && Fails([e]) == e.numFail
  {
    assert [e][..0] == [];
  }

  lemma NumbersWithout(b: seq<Entry>, k: nat)
    requires k < |b| && forall e :: e in b ==> ValidDates(e)
    ensures FirstStart(b) == Min(b[k].startDate, FirstStart(Without(b, k)))
    ensures LastEnd(b) == Max(b[k].endDate, LastEnd(Without(b, k)))
    ensures Passes(b) == b[k].numPass + Passes(Without(b, k))
    ensures Fails(b) == b[k].numFail + Fails(Without(b, k))
  {
    hide FirstStart, LastEnd, Passes, Fails;
    var lo, e, hi := b[..k], [b[k]], b[k + 1..];
    assert b == lo + (e + hi);
    NumbersOne(b[k]);
    NumbersConcat(lo, e + hi);
    NumbersConcat(e, hi);
    NumbersConcat(lo, hi);
  }

  lemma {:induction false} NumbersOfPermutation(a: seq<Entry>, b: seq<Entry>)
    requires multiset(a) == multiset(b) && forall e :: e in a ==> ValidDates(e)
    ensures FirstStart(a) == FirstStart(b) && LastEnd(a) == LastEnd(b)
    ensures Passes(a) == Passes(b) && Fails(a) == Fails(b)
  {
    if a == [] {
      assert |multiset(b)| == 0;
    } else {
      hide FirstStart, LastEnd, Passes, Fails;
      SameElements(a, b);
      var k := HeadOccurs(a, b);
      assert Without(a, 0) == a[1..];
      NumbersOfPermutation(a[1..], Without(b, k));
      NumbersWithout(a, 0);
      NumbersWithout(b, k);
    }
  }

  lemma SameElements<T>(a: seq<T>, b: seq<T>)
    requires multiset(a) == multiset(b)
    ensures forall x :: x in a <==> x in b
  {
    assert forall x :: x in a <==> x in multiset(a);
    assert forall x :: x in b <==> x in multiset(b);
  }

  ghost predicate AllAre(es: seq<Entry>, c: Component, v: Value) {
    forall e :: e in es ==> Field(e, c) == v
  }

  /** `Common` by membership. */
  lemma CommonIs(es: seq<Entry>, c: Component)
    requires es != []
    ensures forall v :: AllAre(es, c, v) ==> Common(es, c) == v
    ensures (forall v :: !AllAre(es, c, v)) ==> Common(es, c) == Multiple(c)
  {
    assert es[0] in es;
    if forall i :: 0 <= i < |es| ==> Field(es[i], c) == Field(es[0], c) {
      assert AllAre(es, c, Field(es[0], c));
    }
  }

  lemma CommonOfPermutation(a: seq<Entry>, b: seq<Entry>, c: Component)
    requires multiset(a) == multiset(b)
    ensures Common(a, c) == Common(b, c)
  {
    assert |multiset(a)| == |a| && |multiset(b)| == |b|;
    if a != [] {
      SameElements(a, b);
      CommonIs(a, c);
      CommonIs(b, c);
      assert forall v :: AllAre(a, c, v) <==> AllAre(b, c, v);
    }
  }

  /** The sum does not depend on the order of the entries. */
  lemma SumOfPermutation(a: seq<Entry>, b: seq<Entry>)
    requires multiset(a) == multiset(b) && forall e :: e in a ==> ValidDates(e)
    ensures Sum(a) == Sum(b)
  {
    NumbersOfPermutation(a, b);
    CommonOfPermutation(a, b, Test);
    CommonOfPermutation(a, b, Task);
    CommonOfPermutation(a, b, Variant);
    CommonOfPermutation(a, b, Distro);
  }

  // ----- Sums of sums -----

  function Sums(groups: seq<seq<Entry>>): (r: seq<Entry>)
    ensures |r| == |groups|
    ensures forall i :: 0 <= i < |groups| ==> r[i] == Sum(groups[i])
  {
    seq(|groups|, i requires 0 <= i < |groups| => Sum(groups[i]))
  }

  lemma {:induction false} NumbersOfSums(groups: seq<seq<Entry>>)
    requires forall e :: e in Flatten(groups) ==> ValidDates(e)
    requires forall i :: 0 <= i < |groups| ==> groups[i] != []
    ensures var s, f := Sums(groups), Flatten(groups);
            FirstStart(s) == FirstStart(f) && LastEnd(s) == LastEnd(f) && Passes(s) == Passes(f) && Fails(s) == Fails(f)
    ensures forall e :: e in Sums(groups) ==> ValidDates(e)
  {
    if groups != [] {
      var init, last := groups[..|groups| - 1], groups[|groups| - 1];
      NumbersOfSums(init);
      assert Sums(groups)[..|groups| - 1] == Sums(init);
      assert Sums(groups) == Sums(init) + [Sum(last)];
      DatesBounded(last);
      NumbersConcat(Flatten(init), last);
      NumbersOne(Sum(last));
      hide FirstStart, LastEnd, Passes, Fails;
      NumbersConcat(Sums(init), [Sum(last)]);
    }
  }

  lemma CommonOfSums(groups: seq<seq<Entry>>, c: Component)
    requires forall i :: 0 <= i < |groups| ==> groups[i] != []
    ensures Common(Sums(groups), c) == Common(Flatten(groups), c)
  {
    if groups == [] {
      return;
    }
    var s, f := Sums(groups), Flatten(groups);
    FlattenMembers(groups);
    assert groups[0][0] in f;
    CommonIs(f, c);
    CommonIs(s, c);
    forall i | 0 <= i < |groups|
      ensures forall v :: AllAre(groups[i], c, v) ==> Field(s[i], c) == v
      ensures AllAre(groups[i], c, Field(s[i], c)) || Field(s[i], c) == Multiple(c)
    {
      CommonIs(groups[i], c);
      assert Field(s[i], c) == Common(groups[i], c);
    }
    forall v | AllAre(f, c, v)
      ensures AllAre(s, c, v)
    {
      forall i | 0 <= i < |s|
        ensures Field(s[i], c) == v
      {
        assert AllAre(groups[i], c, v);
      }
    }
    forall v | AllAre(s, c, v) && v != Multiple(c)
      ensures AllAre(f, c, v)
    {
      forall e | e in f
        ensures Field(e, c) == v
      {
        var i :| 0 <= i < |groups| && e in groups[i];
        assert s[i] in s;
        assert AllAre(groups[i], c, v);
      }
    }
  }

  /** Summing the sums of any nonempty groups is summing everything at once. */
  lemma SumOfSums(groups: seq<seq<Entry>>)
    requires forall e :: e in Flatten(groups) ==> ValidDates(e)
    requires forall i :: 0 <= i < |groups| ==> groups[i] != []
    ensures Sum(Sums(groups)) == Sum(Flatten(groups))
  {
    NumbersOfSums(groups);
    CommonOfSums(groups, Test);
    CommonOfSums(groups, Task);
    CommonOfSums(groups, Variant);
    CommonOfSums(groups, Distro);
  }
}
