/**
  The resolver as it runs: attributes on nodes that hold the direct dependencies, two caches and
  the flags of the nodes being explored.  Every query answers what `Libdeps` computes from the
  graph alone.
 */
module LibdepsResolver {
  import opened Sorting
  import opened DependencyGraph
  import opened LibdepsOrder
  import opened LibdepsEmission

  ghost function Members(s: seq<Node>): set<Node> {
    set x | x in s
  }

  class NodeAttributes {
    var direct: Graph                              // libdeps_direct
    var directSorted: map<Node, seq<Dependency>>   // libdeps_direct_sorted
    var exploring: set<Node>                       // the nodes whose libdeps_exploring is true
    var cached: map<Node, seq<Node>>               // LIBDEPS_cached

    ghost predicate SortedCoherent()
      reads this
    {
      forall n :: n in directSorted && directSorted[n] != [] ==> directSorted[n] == SortByName(Direct(direct, n))
    }

    /** Between queries: nothing is being explored, and the caches say what the graph says. */
    ghost predicate Coherent()
      reads this
    {
      && exploring == {}
      && SortedCoherent()
      && forall n :: n in cached ==> Libdeps(direct, n) == Sorted(cached[n])
    }

    /** Before the first query. */
    ghost predicate Unqueried()
      reads this
    {
      exploring == {} && directSorted == map[] && cached == map[]
    }

    constructor ()
      ensures Unqueried() && direct == map[]
    {
      direct, directSorted, exploring, cached := map[], map[], {}, map[];
    }

    method AppendDirectLibdeps(target: Target, prereqs: seq<Dependency>)
      modifies this`direct
      ensures direct == Appended(old(direct), Emission(target, prereqs))
      ensures old(Unqueried()) ==> Unqueried()
    {
      match target
      case Path(_) =>
      case Object(n) =>
        if n !in direct {
          direct := direct[n := []];
        }
        direct := direct[n := direct[n] + prereqs];
        assert direct == old(direct)[n := Direct(old(direct), n) + prereqs];
    }

    method GetSortedDirectLibdeps(n: Node) returns (r: seq<Dependency>)
      requires SortedCoherent()
      modifies this`directSorted
      ensures r == SortByName(Direct(direct, n))
      ensures SortedCoherent()
    {
      r := if n in directSorted then directSorted[n] else [];
      if r == [] {
        r := SortByName(Direct(direct, n));
        directSorted := directSorted[n := r];
      }
    }

    /** `marked` and `order` grow together; a cycle error leaves them behind. */
    method VisitNode(n: Node, marked: set<Node>, order: seq<Node>) returns (r: Outcome, marked': set<Node>)
      requires SortedCoherent() && marked == Members(order)
      modifies this`directSorted, this`exploring
      ensures SortedCoherent() && exploring == old(exploring)
      ensures r == Visit(direct, exploring, order, n)
      ensures r.Sorted? ==> marked' == Members(r.order)
      decreases direct.Keys - exploring
    {
      hide Sort, SortByName;
      marked' := marked;
      if n in exploring {
        return Cycle([n]), marked;
      }
      exploring := exploring + {n};
      if n in marked {
        r := Sorted(order);
      } else {
        var children := GetSortedDirectLibdeps(n);
        r := Sorted(order);
        var i := 0;
        while i < |children| && r.Sorted?
          invariant i <= |children| && (r.Cycle? ==> r.nodes != [])
          invariant SortedCoherent() && exploring == old(exploring) + {n}
          invariant r.Sorted? ==> marked' == Members(r.order)
          invariant VisitAll(direct, exploring, order, Children(direct, n)) ==
                    if r.Sorted? then VisitAll(direct, exploring, r.order, Targets(children[i..], Private)) else r
          decreases |children| - i
        {
          var child := children[i];
          assert children[i..][1..] == children[i + 1..];
          if child.kind != Private {
            NothingToSort();
            assert n in direct.Keys;
            r, marked' := VisitNode(child.target, marked', r.order);
          }
          i := i + 1;
        }
        match r
        case Sorted(o) =>
          marked' := marked' + {n};
          r := Sorted(o + [n]);
        case Cycle(c) =>
          r := Cycle(Unwind(n, c));
      }
      exploring := exploring - {n};
    }

    /** Answers a query, whether it comes out of the cache, is computed, or raises. */
    method GetLibdeps(node: Node) returns (r: Outcome)
      requires Coherent()
      modifies this`directSorted, this`exploring, this`cached
      ensures Coherent()
      ensures r == Libdeps(direct, node)
      ensures cached == if r.Sorted? then old(cached)[node := r.order] else old(cached)
    {
      hide Sort, SortByName, Reversed;
      if node in cached {
        assert cached == cached[node := cached[node]];
        return Sorted(cached[node]);
      }
      var marked: set<Node> := {};
      r := Sorted([]);
      var deps := GetSortedDirectLibdeps(node);
      var i := 0;
      while i < |deps| && r.Sorted?
        invariant i <= |deps| && SortedCoherent() && exploring == {} && cached == old(cached)
        invariant r.Sorted? ==> marked == Members(r.order)
        invariant VisitAll(direct, {}, [], Roots(direct, node)) ==
                  if r.Sorted? then VisitAll(direct, {}, r.order, Targets(deps[i..], Interface)) else r
        decreases |deps| - i
      {
        assert deps[i..][1..] == deps[i + 1..];
        if deps[i].kind != Interface {
          r, marked := VisitNode(deps[i].target, marked, r.order);
        }
        i := i + 1;
      }
      if r.Sorted? {
        r := Sorted(Reversed(r.order));
        cached := cached[node := r.order];
      }
    }
  }

  /** A whole run: emissions first, then queries in any order, each with the answer of a fresh computation. */
  method EmitThenQuery(emissions: seq<Emission>, queries: seq<Node>) returns (answers: seq<Outcome>)
    ensures |answers| == |queries|
    ensures forall k :: 0 <= k < |queries| ==> answers[k] == Libdeps(Emitted(emissions), queries[k])
  {
    var attributes := new NodeAttributes();
    for i := 0 to |emissions|
      invariant attributes.Unqueried() && attributes.direct == Emitted(emissions[..i])
    {
      attributes.AppendDirectLibdeps(emissions[i].target, emissions[i].prereqs);
      assert emissions[..i + 1][..i] == emissions[..i];
    }
    assert emissions[..|emissions|] == emissions;
    answers := [];
    for k := 0 to |queries|
      invariant attributes.Coherent() && attributes.direct == Emitted(emissions)
      invariant |answers| == k
      invariant forall j :: 0 <= j < k ==> answers[j] == Libdeps(Emitted(emissions), queries[j])
    {
      var answer := attributes.GetLibdeps(queries[k]);
      answers := answers + [answer];
    }
  }
}
