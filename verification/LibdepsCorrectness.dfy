/** The resolver returns exactly the required libraries in link order, or a cycle among them. */
module LibdepsCorrectness {
  import opened DependencyGraph
  import opened LibdepsOrder
  import opened Sorting

  // ----- What is visited -----

  lemma {:induction false} TargetsAre(deps: seq<Dependency>, skip: Visibility, x: Node)
    ensures x in Targets(deps, skip) <==> exists d :: d in deps && d.kind != skip && d.target == x
  {
    if deps != [] {
      TargetsAre(deps[1..], skip, x);
      assert deps == [deps[0]] + deps[1..];
    }
  }

  lemma TargetsOfSorted(g: Graph, n: Node, skip: Visibility, x: Node)
    ensures x in Targets(SortByName(Direct(g, n)), skip) <==> DependsOn(g, n, x, skip)
  {
    var deps := Direct(g, n);
    SortKeeps(NamedBefore, deps);
    TargetsAre(SortByName(deps), skip, x);
    assert forall d :: d in SortByName(deps) <==> d in multiset(SortByName(deps));
    assert forall d :: d in deps <==> d in multiset(deps);
  }

  /** The resolver visits a node's edges. */
  lemma ChildrenAreEdges(g: Graph, n: Node)
    ensures forall x :: x in Children(g, n) <==> Edge(g, n, x)
  {
    forall x
      ensures x in Children(g, n) <==> Edge(g, n, x)
    {
      TargetsOfSorted(g, n, Private, x);
    }
  }

  // ----- Success -----

  /** A finished list: no library twice, and each after everything it depends on. */
  ghost predicate Finished(g: Graph, order: seq<Node>) {
    && NoDuplicates(order)
    && forall i, y :: 0 <= i < |order| && Edge(g, order[i], y) ==> y in order[..i]
  }

  ghost predicate ReachedFrom(g: Graph, ns: seq<Node>, x: Node) {
    exists m :: m in ns && Reaches(g, m, x)
  }

  /** `order'` continues `order` by libraries reached from `ns`, none of them still being explored. */
  ghost predicate Continues(g: Graph, exploring: set<Node>, order: seq<Node>, ns: seq<Node>, order': seq<Node>) {
    && order <= order'
    && Finished(g, order')
    && (forall m :: m in ns ==> m in order')
    && forall x :: x in order' && x !in order ==> x !in exploring && ReachedFrom(g, ns, x)
  }

  lemma FinishedAppend(g: Graph, order: seq<Node>, n: Node)
    requires Finished(g, order) && n !in order
    requires forall y :: Edge(g, n, y) ==> y in order
    ensures Finished(g, order + [n])
  {
    var o := order + [n];
    forall i, y | 0 <= i < |o| && Edge(g, o[i], y)
      ensures y in o[..i]
    {
      assert o[..i] == order[..i];
      if i == |order| {
        assert order[..i] == order;
      }
    }
  }

  lemma {:induction false} VisitSorts(g: Graph, exploring: set<Node>, order: seq<Node>, n: Node)
    requires Finished(g, order)
    ensures var r := Visit(g, exploring, order, n);
            r.Sorted? ==> Continues(g, exploring, order, [n], r.order)
    decreases g.Keys - exploring, 0, 1
  {
    ReachesSelf(g, n);
    if n !in exploring && n !in order {
      var children := Children(g, n);
      if n !in g.Keys {
        assert g.Keys - (exploring + {n}) == g.Keys - exploring;
      }
      VisitAllSorts(g, exploring + {n}, order, children);
      var inner := VisitAll(g, exploring + {n}, order, children);
      if inner.Sorted? {
        ChildrenAreEdges(g, n);
        FinishedAppend(g, inner.order, n);
        forall x | x in inner.order + [n] && x !in order
          ensures x !in exploring && ReachedFrom(g, [n], x)
        {
          if x != n {
            var m :| m in children && Reaches(g, m, x);
            ReachesStep(g, n, m, x);
          }
          assert n in [n];
        }
      }
    }
  }

  lemma {:induction false} VisitAllSorts(g: Graph, exploring: set<Node>, order: seq<Node>, ns: seq<Node>)
    requires Finished(g, order)
    ensures var r := VisitAll(g, exploring, order, ns);
            r.Sorted? ==> Continues(g, exploring, order, ns, r.order)
    decreases g.Keys - exploring, |ns|, 0
  {
    if ns != [] {
      VisitSorts(g, exploring, order, ns[0]);
      var first := Visit(g, exploring, order, ns[0]);
      if first.Sorted? {
        VisitAllSorts(g, exploring, first.order, ns[1..]);
        var r := VisitAll(g, exploring, first.order, ns[1..]);
        if r.Sorted? {
          ContinuesTwice(g, exploring, order, ns, first.order, r.order);
        }
      }
    }
  }

  lemma ContinuesTwice(g: Graph, exploring: set<Node>, order: seq<Node>, ns: seq<Node>, mid: seq<Node>, end: seq<Node>)
    requires ns != []
    requires Continues(g, exploring, order, [ns[0]], mid) && Continues(g, exploring, mid, ns[1..], end)
    ensures Continues(g, exploring, order, ns, end)
  {
    assert ns == [ns[0]] + ns[1..];
    assert forall m :: m in ns <==> m in [ns[0]] || m in ns[1..];
    assert forall x :: x in mid ==> x in end;
    forall x | x in end && x !in order
      ensures x !in exploring && ReachedFrom(g, ns, x)
    {
      var m :| (m in [ns[0]] || m in ns[1..]) && Reaches(g, m, x);
      assert m in ns;
    }
  }

  // ----- Failure -----

  /** A cycle error on its way up: it names a walk from `start` back into the nodes being explored. */
  ghost predicate Unfinished(g: Graph, exploring: set<Node>, start: Node, c: seq<Node>) {
    && Chain(g, c)
    && c[0] == start
    && NoDuplicates(c)
    && c[|c| - 1] in exploring
    && forall i :: 0 <= i < |c| - 1 ==> c[i] !in exploring
  }

  /** A cycle error raised below a visit of one of `ns`: still unfinished, or a complete cycle. */
  ghost predicate Raised(g: Graph, exploring: set<Node>, ns: seq<Node>, c: seq<Node>) {
    || (exists m :: m in ns && Unfinished(g, exploring, m, c))
    || (SimpleCycle(g, c) && ReachedFrom(g, ns, c[0]))
  }

  lemma UnwindUnfinished(g: Graph, exploring: set<Node>, n: Node, m: Node, c: seq<Node>)
    requires n !in exploring && Edge(g, n, m) && Unfinished(g, exploring + {n}, m, c)
    ensures Unwind(n, c) == [n] + c
    ensures if c[|c| - 1] == n then SimpleCycle(g, [n] + c) else Unfinished(g, exploring, n, [n] + c)
  {
    var u := [n] + c;
    ChainCons(g, n, c);
    assert u[|u| - 1] == c[|c| - 1];
    forall i, j | 0 <= i < j < |u| - 1
      ensures u[i] != u[j]
    {
      assert u[j] == c[j - 1] && c[j - 1] !in exploring + {n};
      if i > 0 {
        assert u[i] == c[i - 1];
      }
    }
    if c[|c| - 1] != n {
      forall i | 0 <= i < |u| - 1
        ensures u[i] !in exploring && u[i] != u[|u| - 1]
      {
        if i > 0 {
          assert u[i] == c[i - 1];
        }
      }
    }
  }

  lemma {:induction false} VisitRaises(g: Graph, exploring: set<Node>, order: seq<Node>, n: Node)
    ensures var r := Visit(g, exploring, order, n);
            r.Cycle? ==> Raised(g, exploring, [n], r.nodes)
    decreases g.Keys - exploring, 0, 1
  {
    assert n in [n];
    if n in exploring {
      assert Unfinished(g, exploring, n, [n]);
    } else if n !in order {
      var children := Children(g, n);
      if n !in g.Keys {
        assert g.Keys - (exploring + {n}) == g.Keys - exploring;
      }
      VisitAllRaises(g, exploring + {n}, order, children);
      var inner := VisitAll(g, exploring + {n}, order, children);
      if inner.Cycle? {
        ChildrenAreEdges(g, n);
        UnwindRaised(g, exploring, n, inner.nodes);
      }
    }
  }

  lemma UnwindRaised(g: Graph, exploring: set<Node>, n: Node, c: seq<Node>)
    requires n !in exploring && c != [] && Raised(g, exploring + {n}, Children(g, n), c)
    requires forall x :: x in Children(g, n) <==> Edge(g, n, x)
    ensures Raised(g, exploring, [n], Unwind(n, c))
  {
    hide Reaches, Edge, Children, Chain;
    assert n in [n];
    if m :| m in Children(g, n) && Unfinished(g, exploring + {n}, m, c) {
      UnwindUnfinished(g, exploring, n, m, c);
      ReachesSelf(g, n);
    } else {
      var m :| m in Children(g, n) && Reaches(g, m, c[0]);
      ReachesStep(g, n, m, c[0]);
    }
  }

  lemma {:induction false} VisitAllRaises(g: Graph, exploring: set<Node>, order: seq<Node>, ns: seq<Node>)
    ensures var r := VisitAll(g, exploring, order, ns);
            r.Cycle? ==> Raised(g, exploring, ns, r.nodes)
    decreases g.Keys - exploring, |ns|, 0
  {
    if ns != [] {
      VisitRaises(g, exploring, order, ns[0]);
      var first := Visit(g, exploring, order, ns[0]);
      assert forall m :: m in [ns[0]] || m in ns[1..] ==> m in ns;
      if first.Sorted? {
        VisitAllRaises(g, exploring, first.order, ns[1..]);
      }
    }
  }

  // ----- A finished list has no cycle in it -----

  lemma {:induction false} ChainGoesDown(g: Graph, order: seq<Node>, p: seq<Node>, i: nat)
    requires Finished(g, order) && Chain(g, p) && |p| >= 2 && i < |order| && order[i] == p[0]
    ensures exists j :: 0 <= j < i && order[j] == p[|p| - 1]
    decreases |p|
  {
    assert Edge(g, p[0], p[1]);
    var k :| 0 <= k < i && order[k] == p[1];
    if |p| > 2 {
      ChainTail(g, p);
      ChainGoesDown(g, order, p[1..], k);
    }
  }

  lemma NoLoopWhenFinished(g: Graph, order: seq<Node>, n: Node, r: Node)
    requires Finished(g, order) && n in order && Edge(g, n, r)
    ensures !Reaches(g, r, n)
  {
    if Reaches(g, r, n) {
      var p :| Chain(g, p) && p[0] == r && p[|p| - 1] == n;
      ChainCons(g, n, p);
      var i :| 0 <= i < |order| && order[i] == n;
      assert ([n] + p)[|p|] == n;
      ChainGoesDown(g, order, [n] + p, i);
    }
  }

  lemma NoClosedWalkWhenFinished(g: Graph, order: seq<Node>, c: seq<Node>)
    requires Finished(g, order) && c != [] && c[0] in order
    ensures !ClosedWalk(g, c)
  {
    if ClosedWalk(g, c) {
      var i :| 0 <= i < |order| && order[i] == c[0];
      ChainGoesDown(g, order, c, i);
    }
  }

  // ----- The results -----

  lemma RootsAre(g: Graph, root: Node)
    ensures forall x :: x in Roots(g, root) <==> DependsOn(g, root, x, Interface)
    ensures forall x :: ReachedFrom(g, Roots(g, root), x) <==> Required(g, root, x)
  {
    forall x
      ensures x in Roots(g, root) <==> DependsOn(g, root, x, Interface)
    {
      TargetsOfSorted(g, root, Interface, x);
    }
  }

  lemma FinishedHoldsRequired(g: Graph, root: Node, order: seq<Node>, x: Node)
    requires Finished(g, order) && Required(g, root, x)
    requires forall m :: m in Roots(g, root) ==> m in order
    ensures x in order
  {
    RootsAre(g, root);
    var r :| DependsOn(g, root, r, Interface) && Reaches(g, r, x);
    var p :| Chain(g, p) && p[0] == r && p[|p| - 1] == x;
    var members := set y | y in order;
    forall a, b | a in members && Edge(g, a, b)
      ensures b in members
    {
      var i :| 0 <= i < |order| && order[i] == a;
      assert b in order[..i];
    }
    ClosedAlongChain(g, members, p);
  }

  ghost predicate CyclicFrom(g: Graph, root: Node) {
    exists c :: ClosedWalk(g, c) && Required(g, root, c[0])
  }

  /** A query raises a cycle error exactly when some closed walk lies among the libraries it needs. */
  lemma CycleIffCyclic(g: Graph, root: Node)
    ensures Libdeps(g, root).Cycle? <==> CyclicFrom(g, root)
  {
    var roots := Roots(g, root);
    var r := VisitAll(g, {}, [], roots);
    VisitAllRaises(g, {}, [], roots);
    VisitAllSorts(g, {}, [], roots);
    RootsAre(g, root);
    if r.Sorted? && CyclicFrom(g, root) {
      var c :| ClosedWalk(g, c) && Required(g, root, c[0]);
      FinishedHoldsRequired(g, root, r.order, c[0]);
      NoClosedWalkWhenFinished(g, r.order, c);
    }
    if r.Cycle? {
      assert ClosedWalk(g, r.nodes) && Required(g, root, r.nodes[0]);
    }
  }

  /** The error names one of these cycles, from a node back to itself with no other repetition. */
  lemma ReportedCycleIsReal(g: Graph, root: Node)
    ensures var r := Libdeps(g, root);
            r.Cycle? ==> SimpleCycle(g, r.nodes) && Required(g, root, r.nodes[0])
  {
    VisitAllRaises(g, {}, [], Roots(g, root));
    RootsAre(g, root);
  }

  lemma ReversedMembers<T>(s: seq<T>)
    ensures forall x :: x in Reversed(s) <==> x in s
    ensures NoDuplicates(s) ==> NoDuplicates(Reversed(s))
  {
    var r := Reversed(s);
    forall x | x in s
      ensures x in r
    {
      var i :| 0 <= i < |s| && s[i] == x;
      assert r[|s| - 1 - i] == x;
    }
  }

  lemma ReversedFinished(g: Graph, order: seq<Node>)
    requires Finished(g, order)
    ensures DependentsFirst(g, Reversed(order))
  {
    var r, last := Reversed(order), |order| - 1;
    forall i, y | 0 <= i < |r| && Edge(g, r[i], y)
      ensures y in r[i + 1..]
    {
      var k :| 0 <= k < last - i && order[k] == y;
      assert r[i + 1..][last - k - (i + 1)] == r[last - k] == y;
    }
  }

  /**
    The list of a successful query holds exactly the required libraries, each once, and every
    library comes before all the libraries it depends on.
   */
  lemma ListIsRequiredInLinkOrder(g: Graph, root: Node)
    requires Libdeps(g, root).Sorted?
    ensures var order := Libdeps(g, root).order;
            && (forall x :: x in order <==> Required(g, root, x))
            && NoDuplicates(order)
            && DependentsFirst(g, order)
  {
    var roots := Roots(g, root);
    var o := VisitAll(g, {}, [], roots).order;
    VisitAllSorts(g, {}, [], roots);
    RootsAre(g, root);
    ReversedMembers(o);
    ReversedFinished(g, o);
    forall x | Required(g, root, x)
      ensures x in o
    {
      FinishedHoldsRequired(g, root, o, x);
    }
  }

  /** What the map that ignores visibility leaves of a graph's edges. */
  ghost predicate VisibilityIgnored(g: Graph) {
    forall n, d :: d in Direct(g, n) ==> d.kind == Public
  }

  /** With visibility ignored, a target is never in its own list: that would be a cycle. */
  lemma NotInOwnListWhenIgnored(g: Graph, root: Node)
    requires VisibilityIgnored(g) && Libdeps(g, root).Sorted?
    ensures root !in Libdeps(g, root).order
  {
    var roots := Roots(g, root);
    var o := VisitAll(g, {}, [], roots).order;
    VisitAllSorts(g, {}, [], roots);
    ReversedMembers(o);
    ListIsRequiredInLinkOrder(g, root);
    if root in o {
      var r :| DependsOn(g, root, r, Interface) && Reaches(g, r, root);
      assert Edge(g, root, r);
      NoLoopWhenFinished(g, o, root, r);
    }
  }
}
