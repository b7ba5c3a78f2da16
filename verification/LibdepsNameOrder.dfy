/**
  Among the orders that dependencies allow, the resolver returns the one that names decide: what
  earlier-named dependencies need stands behind everything that they do not need.
 */
module LibdepsNameOrder {
  import opened DependencyGraph
  import opened LibdepsConfluence
  import opened LibdepsCorrectness
  import opened LibdepsOrder
  import opened Names
  import opened Sorting

  predicate NameLt(a: string, b: string) {
    NameLe(a, b) && a != b
  }

  /** One of `ns` that is named strictly before `v` reaches `x`. */
  ghost predicate ReachedFromEarlier(g: Graph, ns: seq<Node>, v: Node, x: Node) {
    exists d :: d in ns && NameLt(d.name, v.name) && Reaches(g, d, x)
  }

  /** A dependency of `n` that is named strictly before `v`, and not of kind `skip`, reaches `x`. */
  ghost predicate ReachedEarlier(g: Graph, n: Node, skip: Visibility, v: Node, x: Node) {
    exists d :: DependsOn(g, n, d, skip) && NameLt(d.name, v.name) && Reaches(g, d, x)
  }

  // ----- What is visited earlier -----

  /** How many of the first nodes are named before `name`. */
  function Earlier(ns: seq<Node>, name: string): (k: nat)
    ensures k <= |ns| && (k < |ns| ==> !NameLt(ns[k].name, name))
    ensures forall i :: 0 <= i < k ==> NameLt(ns[i].name, name)
  {
    if ns == [] || !NameLt(ns[0].name, name) then 0 else 1 + Earlier(ns[1..], name)
  }

  /** In a sorted list these are all. */
  lemma EarlierAreAll(ns: seq<Node>, name: string, i: nat)
    requires NameSorted(ns) && Earlier(ns, name) <= i < |ns|
    ensures !NameLt(ns[i].name, name)
  {
    hide NameLe;
    var k := Earlier(ns, name);
    if NameLt(ns[i].name, name) && k < i {
      assert NameLe(ns[k].name, ns[i].name);
      NameLeTransitive(ns[k].name, ns[i].name, name);
      if ns[k].name == name {
        NameLeAntisymmetric(ns[i].name, name);
      }
    }
  }

  lemma {:induction false} VisitAllSplit(g: Graph, exploring: set<Node>, order: seq<Node>, a: seq<Node>, b: seq<Node>)
    ensures var first := VisitAll(g, exploring, order, a);
            VisitAll(g, exploring, order, a + b) ==
            if first.Sorted? then VisitAll(g, exploring, first.order, b) else first
    decreases |a|
  {
    hide Visit;
    if a == [] {
      assert a + b == b;
    } else {
      var r := Visit(g, exploring, order, a[0]);
      assert (a + b)[1..] == a[1..] + b;
      if r.Sorted? {
        VisitAllSplit(g, exploring, r.order, a[1..], b);
      }
    }
  }

  lemma FinishedIsClosed(g: Graph, order: seq<Node>, d: Node, x: Node)
    requires Finished(g, order) && d in order && Reaches(g, d, x)
    ensures x in order
  {
    var p :| Chain(g, p) && p[0] == d && p[|p| - 1] == x;
    var members := set y | y in order;
    forall a, b | a in members && Edge(g, a, b)
      ensures b in members
    {
      var i :| 0 <= i < |order| && order[i] == a;
      assert b in order[..i];
    }
    ClosedAlongChain(g, members, p);
  }

  /** In a list without duplicates, what occurs in a prefix occurs nowhere else. */
  lemma InPrefix(prefix: seq<Node>, all: seq<Node>, i: nat)
    requires prefix <= all && NoDuplicates(all) && i < |all| && all[i] in prefix
    ensures i < |prefix|
  {
    var k :| 0 <= k < |prefix| && prefix[k] == all[i];
    assert all[k] == all[i];
  }

  /** What a node named earlier reaches is reached from one in the first part of the sorted nodes. */
  lemma EarlierReacher(g: Graph, ns: seq<Node>, v: Node, x: Node) returns (d: Node)
    requires NameSorted(ns) && ReachedFromEarlier(g, ns, v, x)
    ensures d in ns[..Earlier(ns, v.name)] && Reaches(g, d, x)
  {
    hide Reaches, NameLe;
    d :| d in ns && NameLt(d.name, v.name) && Reaches(g, d, x);
    var m :| 0 <= m < |ns| && ns[m] == d;
    if m >= Earlier(ns, v.name) {
      EarlierAreAll(ns, v.name, m);
    }
    assert ns[..Earlier(ns, v.name)][m] == d;
  }

  /**
    Of what a run over sorted nodes adds, everything that the nodes named before `v` reach comes in
    front of everything that they do not reach.
   */
  lemma VisitedInNameOrder(g: Graph, exploring: set<Node>, order: seq<Node>, ns: seq<Node>, v: Node, i: nat, j: nat)
    requires Finished(g, order) && NameSorted(ns) && VisitAll(g, exploring, order, ns).Sorted?
    requires |order| <= i < |VisitAll(g, exploring, order, ns).order| && |order| <= j < |VisitAll(g, exploring, order, ns).order|
    ensures var end := VisitAll(g, exploring, order, ns).order;
            ReachedFromEarlier(g, ns, v, end[i]) && !ReachedFromEarlier(g, ns, v, end[j]) ==> i < j
  {
    hide VisitAll, NameLe, Reaches;
    var k := Earlier(ns, v.name);
    var a, b, end := ns[..k], ns[k..], VisitAll(g, exploring, order, ns).order;
    assert a + b == ns;
    VisitAllSplit(g, exploring, order, a, b);
    VisitAllSorts(g, exploring, order, a);
    var mid := VisitAll(g, exploring, order, a).order;
    VisitAllSorts(g, exploring, mid, b);
    if ReachedFromEarlier(g, ns, v, end[i]) && !ReachedFromEarlier(g, ns, v, end[j]) {
      var d := EarlierReacher(g, ns, v, end[i]);
      FinishedIsClosed(g, mid, d, end[i]);
      InPrefix(mid, end, i);
      if j < |mid| {
        NotReachedIsLater(g, exploring, order, ns, v, a, mid, j);
      }
    }
  }

  lemma NotReachedIsLater(g: Graph, exploring: set<Node>, order: seq<Node>, ns: seq<Node>, v: Node, a: seq<Node>,
                          mid: seq<Node>, j: nat)
    requires Continues(g, exploring, order, a, mid) && |order| <= j < |mid|
    requires forall d :: d in a ==> d in ns && NameLt(d.name, v.name)
    ensures ReachedFromEarlier(g, ns, v, mid[j])
  {
    hide NameLt, Reaches;
    if mid[j] in order {
      InPrefix(order, mid, j);
    }
    var d :| d in a && Reaches(g, d, mid[j]);
  }

  // ----- Children and roots -----

  lemma TargetsInNameOrder(g: Graph, n: Node, skip: Visibility)
    ensures NameSorted(Targets(SortByName(Direct(g, n)), skip))
  {
    NamesAreOrdered();
    SortSorts(NamedBefore, Direct(g, n));
    TargetsSorted(SortByName(Direct(g, n)), skip);
  }

  lemma EarlierTargets(g: Graph, n: Node, skip: Visibility, v: Node, x: Node)
    ensures ReachedFromEarlier(g, Targets(SortByName(Direct(g, n)), skip), v, x) <==> ReachedEarlier(g, n, skip, v, x)
  {
    hide Targets, SortByName, NameLt, Reaches, DependsOn;
    forall d
      ensures d in Targets(SortByName(Direct(g, n)), skip) <==> DependsOn(g, n, d, skip)
    {
      TargetsOfSorted(g, n, skip, d);
    }
  }

  /**
    Wherever in a run a library is visited: of the libraries that the visit adds, those that its
    dependencies named before `v` reach come in front of all others.
   */
  lemma ChildrenInNameOrder(g: Graph, exploring: set<Node>, order: seq<Node>, n: Node, v: Node, i: nat, j: nat)
    requires Finished(g, order) && n !in order && Visit(g, exploring, order, n).Sorted?
    requires |order| <= i < |Visit(g, exploring, order, n).order| && |order| <= j < |Visit(g, exploring, order, n).order|
    ensures var end := Visit(g, exploring, order, n).order;
            ReachedEarlier(g, n, Private, v, end[i]) && !ReachedEarlier(g, n, Private, v, end[j]) ==> i < j
  {
    var end := Visit(g, exploring, order, n).order;
    var children := Children(g, n);
    var inner := VisitAll(g, exploring + {n}, order, children).order;
    assert end == inner + [n];
    VisitSorts(g, exploring, order, n);
    TargetsInNameOrder(g, n, Private);
    EarlierTargets(g, n, Private, v, end[i]);
    EarlierTargets(g, n, Private, v, end[j]);
    hide Visit, VisitAll, Targets, ReachedFromEarlier;
    if i < |inner| && j < |inner| {
      VisitedInNameOrder(g, exploring + {n}, order, children, v, i, j);
    } else if i == |inner| && ReachedEarlier(g, n, Private, v, n) {
      var d :| DependsOn(g, n, d, Private) && NameLt(d.name, v.name) && Reaches(g, d, n);
      assert n in end;
      NoLoopWhenFinished(g, end, n, d);
    }
  }

  lemma NothingIsFinished(g: Graph)
    ensures Finished(g, [])
  {
  }

  lemma ListIsReversed(g: Graph, root: Node, i: nat)
    requires Libdeps(g, root).Sorted? && i < |Libdeps(g, root).order|
    ensures var r := VisitAll(g, {}, [], Roots(g, root));
            && r.Sorted? && |r.order| == |Libdeps(g, root).order|
            && Libdeps(g, root).order[i] == r.order[|r.order| - 1 - i]
  {
    hide VisitAll, Roots;
  }

  /**
    The list of a successful query is in name order: whatever dependency `v` of the target one
    takes, the libraries that no dependency named before `v` reaches precede all those that one
    of them does.
   */
  lemma ListIsInNameOrder(g: Graph, root: Node, v: Node, i: nat, j: nat)
    requires Libdeps(g, root).Sorted? && i < |Libdeps(g, root).order| && j < |Libdeps(g, root).order|
    ensures var list := Libdeps(g, root).order;
            !ReachedEarlier(g, root, Interface, v, list[i]) && ReachedEarlier(g, root, Interface, v, list[j]) ==> i < j
  {
    hide Libdeps, VisitAll, Targets, SortByName, ReachedFromEarlier, ReachedEarlier, NameSorted;
    ListIsReversed(g, root, i);
    ListIsReversed(g, root, j);
    var end := VisitAll(g, {}, [], Roots(g, root)).order;
    var last := |end| - 1;
    TargetsInNameOrder(g, root, Interface);
    EarlierTargets(g, root, Interface, v, end[last - i]);
    EarlierTargets(g, root, Interface, v, end[last - j]);
    NothingIsFinished(g);
    VisitedInNameOrder(g, {}, [], Roots(g, root), v, last - j, last - i);
  }

  // ----- A target with one dependency -----

  lemma {:induction false} VisitAgain(g: Graph, order: seq<Node>, n: Node, ns: seq<Node>)
    requires n in order && forall m :: m in ns ==> m == n
    ensures VisitAll(g, {}, order, ns) == Sorted(order)
    decreases |ns|
  {
    if ns != [] {
      assert ns[0] in ns && forall m :: m in ns[1..] ==> m in ns;
      VisitAgain(g, order, n, ns[1..]);
    }
  }

  lemma OnlyRootIsVisited(g: Graph, root: Node, n: Node)
    requires forall x :: DependsOn(g, root, x, Interface) <==> x == n
    ensures VisitAll(g, {}, [], Roots(g, root)) == Visit(g, {}, [], n)
  {
    RootsAre(g, root);
    var roots := Roots(g, root);
    assert n in roots && roots[0] in roots && forall m :: m in roots[1..] ==> m in roots;
    var first := Visit(g, {}, [], n);
    if first.Sorted? {
      VisitSorts(g, {}, [], n);
      hide Visit;
      VisitAgain(g, first.order, n, roots[1..]);
    }
  }

  /** The same among the dependencies of a library that is all a target depends on. */
  lemma ListIsInNameOrderBelow(g: Graph, root: Node, n: Node, v: Node, i: nat, j: nat)
    requires forall x :: DependsOn(g, root, x, Interface) <==> x == n
    requires Libdeps(g, root).Sorted? && i < |Libdeps(g, root).order| && j < |Libdeps(g, root).order|
    ensures var list := Libdeps(g, root).order;
            !ReachedEarlier(g, n, Private, v, list[i]) && ReachedEarlier(g, n, Private, v, list[j]) ==> i < j
  {
    hide Libdeps, Visit, VisitAll, Roots, ReachedEarlier;
    ListIsReversed(g, root, i);
    ListIsReversed(g, root, j);
    OnlyRootIsVisited(g, root, n);
    var last := |Visit(g, {}, [], n).order| - 1;
    NothingIsFinished(g);
    ChildrenInNameOrder(g, {}, [], n, v, last - j, last - i);
  }
}
