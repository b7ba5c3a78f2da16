/** When names tell nodes apart, the order in which dependencies were appended does not matter. */
module LibdepsConfluence {
  import opened Sequences
  import opened Names
  import opened DependencyGraph
  import opened LibdepsOrder
  import opened LibdepsCorrectness
  import opened Sorting

  ghost predicate NameSorted(ns: seq<Node>) {
    forall i, j :: 0 <= i < j < |ns| ==> NameLe(ns[i].name, ns[j].name)
  }

  ghost predicate NamesTellApart(ns: seq<Node>) {
    forall a, b :: a in ns && b in ns && a.name == b.name ==> a == b
  }

  lemma NamesAreOrdered()
    ensures Preorder(NamedBefore)
  {
    forall a: Dependency, b: Dependency
      ensures NamedBefore(a, b) || NamedBefore(b, a)
    {
      NameLeTotal(a.target.name, b.target.name);
    }
    forall a: Dependency, b: Dependency, c: Dependency | NamedBefore(a, b) && NamedBefore(b, c)
      ensures NamedBefore(a, c)
    {
      NameLeTransitive(a.target.name, b.target.name, c.target.name);
    }
  }

  // ----- A sorted list is determined by what is in it -----

  lemma TailIsSorted(a: seq<Node>)
    requires NameSorted(a) && a != []
    ensures NameSorted(a[1..])
  {
    hide NameLe;
  }

  lemma TailTellsApart(a: seq<Node>)
    requires NamesTellApart(a) && a != []
    ensures NamesTellApart(a[1..])
  {
  }

  lemma {:induction false} SortedUnique(a: seq<Node>, b: seq<Node>)
    requires NameSorted(a) && NameSorted(b) && multiset(a) == multiset(b) && NamesTellApart(a)
    ensures a == b
  {
    if a == [] {
      assert |multiset(b)| == 0;
    } else {
      assert |b| == |multiset(b)| == |multiset(a)| > 0;
      SameHead(a, b);
      hide NameSorted, NamesTellApart;
      TailIsSorted(a);
      TailIsSorted(b);
      TailTellsApart(a);
      TailLosesHead(a);
      TailLosesHead(b);
      MultisetCancel(multiset{a[0]}, multiset(a[1..]), multiset(b[1..]));
      SortedUnique(a[1..], b[1..]);
      assert a == [a[0]] + a[1..] && b == [b[0]] + b[1..];
    }
  }

  lemma SameHead(a: seq<Node>, b: seq<Node>)
    requires NameSorted(a) && NameSorted(b) && multiset(a) == multiset(b) && NamesTellApart(a) && a != [] && b != []
    ensures a[0] == b[0]
  {
    hide NameSorted, NameLe;
    LeastComesFirst(a, b);
    LeastComesFirst(b, a);
    NameLeAntisymmetric(a[0].name, b[0].name);
    assert a[0] in a && b[0] in multiset(a);
  }

  lemma LeastComesFirst(a: seq<Node>, b: seq<Node>)
    requires NameSorted(a) && multiset(a) == multiset(b) && a != [] && b != []
    ensures NameLe(a[0].name, b[0].name)
  {
    assert b[0] in multiset(a);
    var k :| 0 <= k < |a| && a[k] == b[0];
    if k == 0 {
      NameLeTotal(a[0].name, a[0].name);
    }
  }

  // ----- Targets of permuted lists -----

  lemma {:induction false} TargetsConcat(a: seq<Dependency>, b: seq<Dependency>, skip: Visibility)
    ensures Targets(a + b, skip) == Targets(a, skip) + Targets(b, skip)
  {
    if a == [] {
      assert a + b == b;
    } else {
      TargetsConcat(a[1..], b, skip);
      ConcatAssociative([a[0].target], Targets(a[1..], skip), Targets(b, skip));
      assert (a + b)[1..] == a[1..] + b;
    }
  }

  lemma TargetsWithout(b: seq<Dependency>, k: nat, skip: Visibility)
    requires k < |b|
    ensures multiset(Targets(b, skip)) == multiset(Targets([b[k]], skip)) + multiset(Targets(Without(b, k), skip))
  {
    var lo, d, hi := b[..k], [b[k]], b[k + 1..];
    assert b == lo + (d + hi);
    TargetsConcat(lo, d + hi, skip);
    TargetsConcat(d, hi, skip);
    TargetsConcat(lo, hi, skip);
  }

  lemma {:induction false} TargetsOfPermutation(a: seq<Dependency>, b: seq<Dependency>, skip: Visibility)
    requires multiset(a) == multiset(b)
    ensures multiset(Targets(a, skip)) == multiset(Targets(b, skip))
  {
    if a == [] {
      assert |multiset(b)| == 0;
    } else {
      hide Targets;
      var k := HeadOccurs(a, b);
      TargetsOfPermutation(a[1..], Without(b, k), skip);
      TargetsWithout(b, k, skip);
      TargetsConcat([a[0]], a[1..], skip);
      assert a == [a[0]] + a[1..];
    }
  }

  lemma {:induction false} TargetsSorted(deps: seq<Dependency>, skip: Visibility)
    requires InOrder(NamedBefore, deps)
    ensures NameSorted(Targets(deps, skip))
  {
    if deps != [] {
      TargetsSorted(deps[1..], skip);
      var rest := Targets(deps[1..], skip);
      forall j | 0 <= j < |rest|
        ensures NameLe(deps[0].target.name, rest[j].name)
      {
        TargetsAre(deps[1..], skip, rest[j]);
        var d :| d in deps[1..] && d.kind != skip && d.target == rest[j];
        var k :| 0 <= k < |deps[1..]| && deps[1..][k] == d;
        assert deps[k + 1] == d;
      }
    }
  }

  lemma VisitOrderIsUnique(a: seq<Dependency>, b: seq<Dependency>, skip: Visibility)
    requires multiset(a) == multiset(b)
    requires forall d, e :: d in a && e in a && d.target.name == e.target.name ==> d.target == e.target
    ensures Targets(SortByName(a), skip) == Targets(SortByName(b), skip)
  {
    var sa, sb := SortByName(a), SortByName(b);
    NamesAreOrdered();
    SortKeeps(NamedBefore, a);
    SortKeeps(NamedBefore, b);
    SortSorts(NamedBefore, a);
    SortSorts(NamedBefore, b);
    TargetsSorted(sa, skip);
    TargetsSorted(sb, skip);
    TargetsOfPermutation(sa, sb, skip);
    var ta := Targets(sa, skip);
    forall x, y | x in ta && y in ta && x.name == y.name
      ensures x == y
    {
      TargetsAre(sa, skip, x);
      TargetsAre(sa, skip, y);
      var d :| d in sa && d.kind != skip && d.target == x;
      var e :| e in sa && e.kind != skip && e.target == y;
      assert d in multiset(sa) && e in multiset(sa);
      assert d in a && e in a;
    }
    SortedUnique(ta, Targets(sb, skip));
  }

  // ----- Graphs that differ only in the order of their direct dependencies -----

  ghost predicate DistinctNames(g: Graph) {
    forall n, d, e :: d in Direct(g, n) && e in Direct(g, n) && d.target.name == e.target.name ==> d.target == e.target
  }

  ghost predicate SameDependencies(g: Graph, h: Graph) {
    g.Keys == h.Keys && forall n :: multiset(Direct(g, n)) == multiset(Direct(h, n))
  }

  lemma SameTargets(g: Graph, h: Graph, n: Node, skip: Visibility)
    requires DistinctNames(g) && SameDependencies(g, h)
    ensures Targets(SortByName(Direct(g, n)), skip) == Targets(SortByName(Direct(h, n)), skip)
  {
    VisitOrderIsUnique(Direct(g, n), Direct(h, n), skip);
  }

  lemma {:induction false} SameVisit(g: Graph, h: Graph, exploring: set<Node>, order: seq<Node>, n: Node)
    requires DistinctNames(g) && SameDependencies(g, h)
    ensures Visit(g, exploring, order, n) == Visit(h, exploring, order, n)
    decreases g.Keys - exploring, 0, 1
  {
    hide DistinctNames, SameDependencies;
    if n !in exploring && n !in order {
      if n !in g.Keys {
        assert g.Keys - (exploring + {n}) == g.Keys - exploring;
      }
      SameTargets(g, h, n, Private);
      SameVisitAll(g, h, exploring + {n}, order, Children(g, n));
    }
  }

  lemma {:induction false} SameVisitAll(g: Graph, h: Graph, exploring: set<Node>, order: seq<Node>, ns: seq<Node>)
    requires DistinctNames(g) && SameDependencies(g, h)
    ensures VisitAll(g, exploring, order, ns) == VisitAll(h, exploring, order, ns)
    decreases g.Keys - exploring, |ns|, 0
  {
    hide DistinctNames, SameDependencies;
    if ns != [] {
      SameVisit(g, h, exploring, order, ns[0]);
      var first := Visit(g, exploring, order, ns[0]);
      if first.Sorted? {
        SameVisitAll(g, h, exploring, first.order, ns[1..]);
      }
    }
  }

  /** Lists and cycle errors alike depend only on which dependencies there are. */
  lemma OrderDoesNotMatter(g: Graph, h: Graph, root: Node)
    requires DistinctNames(g) && SameDependencies(g, h)
    ensures Libdeps(g, root) == Libdeps(h, root)
  {
    SameTargets(g, h, root, Interface);
    SameVisitAll(g, h, {}, [], Roots(g, root));
  }
}
