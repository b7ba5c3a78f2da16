/** The stable sort that the models share: it keeps what is in a list and puts it in order. */
module Sorting {
  import opened Sequences

  /** Puts `x` in front of the first entry that may come behind it. */
  function Insert<T>(le: (T, T) -> bool, x: T, sorted: seq<T>): seq<T> {
    if sorted == [] || le(x, sorted[0]) then [x] + sorted else [sorted[0]] + Insert(le, x, sorted[1..])
  }

  function Sort<T>(le: (T, T) -> bool, s: seq<T>): seq<T> {
    if s == [] then [] else Insert(le, s[0], Sort(le, s[1..]))
  }

  ghost predicate InOrder<T(!new)>(le: (T, T) -> bool, s: seq<T>) {
    forall i, j :: 0 <= i < j < |s| ==> le(s[i], s[j])
  }

  /** Any two can be compared, and comparisons add up; different entries may be alike. */
  ghost predicate Preorder<T(!new)>(le: (T, T) -> bool) {
    && (forall a, b :: le(a, b) || le(b, a))
    && (forall a, b, c :: le(a, b) && le(b, c) ==> le(a, c))
  }

  lemma {:induction false} InsertKeeps<T>(le: (T, T) -> bool, x: T, sorted: seq<T>)
    ensures multiset(Insert(le, x, sorted)) == multiset{x} + multiset(sorted)
  {
    if sorted != [] {
      InsertKeeps(le, x, sorted[1..]);
      TailLosesHead(sorted);
    }
  }

  lemma {:induction false} SortKeeps<T>(le: (T, T) -> bool, s: seq<T>)
    ensures multiset(Sort(le, s)) == multiset(s)
  {
    if s != [] {
      SortKeeps(le, s[1..]);
      InsertKeeps(le, s[0], Sort(le, s[1..]));
      TailLosesHead(s);
    }
  }

  /** What is put in front of a list in order stays in order with it. */
  lemma OrderCons<T(!new)>(le: (T, T) -> bool, x: T, s: seq<T>)
    requires InOrder(le, s) && forall y :: y in s ==> le(x, y)
    ensures InOrder(le, [x] + s)
  {
    var r := [x] + s;
    forall i, j | 0 <= i < j < |r|
      ensures le(r[i], r[j])
    {
      assert r[j] == s[j - 1] && s[j - 1] in s;
      if i > 0 {
        assert r[i] == s[i - 1];
      }
    }
  }

  lemma HeadIsLeast<T(!new)>(le: (T, T) -> bool, s: seq<T>, y: T)
    requires InOrder(le, s) && Preorder(le) && y in s
    ensures le(s[0], y)
  {
    var k :| 0 <= k < |s| && s[k] == y;
    assert k > 0 ==> le(s[0], s[k]);
  }

  lemma TailInOrder<T(!new)>(le: (T, T) -> bool, s: seq<T>)
    requires InOrder(le, s) && s != []
    ensures InOrder(le, s[1..])
  {
  }

  lemma {:induction false} InsertSorts<T(!new)>(le: (T, T) -> bool, x: T, sorted: seq<T>)
    requires Preorder(le) && InOrder(le, sorted)
    ensures InOrder(le, Insert(le, x, sorted))
  {
    if sorted == [] {
    } else if le(x, sorted[0]) {
      forall y | y in sorted
        ensures le(x, y)
      {
        HeadIsLeast(le, sorted, y);
      }
      OrderCons(le, x, sorted);
    } else {
      var rest := Insert(le, x, sorted[1..]);
      TailInOrder(le, sorted);
      InsertSorts(le, x, sorted[1..]);
      InsertKeeps(le, x, sorted[1..]);
      forall y | y in rest
        ensures le(sorted[0], y)
      {
        assert y in multiset(rest);
        if y != x {
          assert y in sorted[1..];
          HeadIsLeast(le, sorted, y);
        }
      }
      OrderCons(le, sorted[0], rest);
    }
  }

  lemma {:induction false} SortSorts<T(!new)>(le: (T, T) -> bool, s: seq<T>)
    requires Preorder(le)
    ensures InOrder(le, Sort(le, s))
  {
    if s != [] {
      SortSorts(le, s[1..]);
      InsertSorts(le, s[0], Sort(le, s[1..]));
    }
  }
}
