/** The depth-first resolution of library dependencies as a function of the graph. */
module LibdepsOrder {
  import opened Names
  import opened DependencyGraph
  import opened Sorting

  // ----- Direct dependencies in the order they are visited -----

  predicate NamedBefore(a: Dependency, b: Dependency) {
    NameLe(a.target.name, b.target.name)
  }

  /** `sorted(deps, key=name of the target)`: stable. */
  function SortByName(deps: seq<Dependency>): seq<Dependency> {
    Sort(NamedBefore, deps)
  }

  lemma NothingToSort()
    ensures SortByName([]) == []
  {
  }

  /** The targets of the dependencies that are not `skip`. */
  function Targets(deps: seq<Dependency>, skip: Visibility): seq<Node> {
    if deps == [] then []
    else if deps[0].kind != skip then [deps[0].target] + Targets(deps[1..], skip)
    else Targets(deps[1..], skip)
  }

  function Children(g: Graph, n: Node): seq<Node> {
    Targets(SortByName(Direct(g, n)), Private)
  }

  function Roots(g: Graph, n: Node): seq<Node> {
    Targets(SortByName(Direct(g, n)), Interface)
  }

  // ----- The traversal -----

  /** The list of a query, or the nodes of the cycle error it raises. */
  datatype Outcome =
    | Sorted(order: seq<Node>)
    | Cycle(nodes: seq<Node>)

  /** What the frame of `n` adds to a cycle error that passes through it. */
  function Unwind(n: Node, cycle: seq<Node>): seq<Node>
    requires cycle != []
  {
    if |cycle| == 1 || cycle[0] != cycle[|cycle| - 1] then [n] + cycle else cycle
  }

  /** Visits `n` with the libraries in `order` finished, dependencies before dependents. */
  function Visit(g: Graph, exploring: set<Node>, order: seq<Node>, n: Node): (r: Outcome)
    ensures r.Cycle? ==> r.nodes != []
    decreases g.Keys - exploring, 0, 1
  {
    if n in exploring then Cycle([n])
    else if n in order then Sorted(order)
    else
      assert n !in g.Keys ==> g.Keys - (exploring + {n}) == g.Keys - exploring;
      match VisitAll(g, exploring + {n}, order, Children(g, n))
      case Sorted(o) => Sorted(o + [n])
      case Cycle(c) => Cycle(Unwind(n, c))
  }

  function VisitAll(g: Graph, exploring: set<Node>, order: seq<Node>, ns: seq<Node>): (r: Outcome)
    ensures r.Cycle? ==> r.nodes != []
    decreases g.Keys - exploring, |ns|, 0
  {
    if ns == [] then Sorted(order)
    else
      match Visit(g, exploring, order, ns[0])
      case Sorted(o) => VisitAll(g, exploring, o, ns[1..])
      case Cycle(c) => Cycle(c)
  }

  function Reversed<T>(s: seq<T>): seq<T> {
    seq(|s|, k requires 0 <= k < |s| => s[|s| - 1 - k])
  }

  /** The library dependencies of `n`, computed from nothing but the graph. */
  function Libdeps(g: Graph, n: Node): Outcome {
    match VisitAll(g, {}, [], Roots(g, n))
    case Sorted(o) => Sorted(Reversed(o))
    case Cycle(c) => Cycle(c)
  }
}
