/**
  The library dependency graph and what the dependencies of a target are.

  From a target the resolver follows every direct dependency that is not Interface; from every
  other library it follows the ones that are not Private.
 */
module DependencyGraph {

  datatype Visibility = Public | Private | Interface

  /** Two nodes may carry the same name; `id` tells them apart. */
  datatype Node = Node(id: nat, name: string)

  datatype Dependency = Dependency(target: Node, kind: Visibility)

  /** The `libdeps_direct` attribute of the nodes that have one. */
  type Graph = map<Node, seq<Dependency>>

  function Direct(g: Graph, n: Node): seq<Dependency> {
    if n in g then g[n] else []
  }

  // ----- What has to be linked, independent of any traversal -----

  ghost predicate DependsOn(g: Graph, a: Node, b: Node, skip: Visibility) {
    exists d :: d in Direct(g, a) && d.kind != skip && d.target == b
  }

  /** A step that every library passes on to its dependents. */
  ghost predicate Edge(g: Graph, a: Node, b: Node) {
    DependsOn(g, a, b, Private)
  }

  ghost predicate Chain(g: Graph, p: seq<Node>) {
    p != [] && forall i :: 0 <= i < |p| - 1 ==> Edge(g, p[i], p[i + 1])
  }

  ghost predicate Reaches(g: Graph, a: Node, b: Node) {
    exists p :: Chain(g, p) && p[0] == a && p[|p| - 1] == b
  }

  /** `x` is needed to link `root`. */
  ghost predicate Required(g: Graph, root: Node, x: Node) {
    exists r :: DependsOn(g, root, r, Interface) && Reaches(g, r, x)
  }

  ghost predicate NoDuplicates<T>(s: seq<T>) {
    forall i, j :: 0 <= i < j < |s| ==> s[i] != s[j]
  }

  /** A walk along edges back to where it began. */
  ghost predicate ClosedWalk(g: Graph, c: seq<Node>) {
    |c| >= 2 && Chain(g, c) && c[0] == c[|c| - 1]
  }

  /** A closed walk that repeats no node but the first, at the end. */
  ghost predicate SimpleCycle(g: Graph, c: seq<Node>) {
    ClosedWalk(g, c) && NoDuplicates(c[..|c| - 1])
  }

  /** Every edge from an element leads to a later element. */
  ghost predicate DependentsFirst(g: Graph, order: seq<Node>) {
    forall i, y :: 0 <= i < |order| && Edge(g, order[i], y) ==> y in order[i + 1..]
  }

  // ----- Facts about chains -----

  lemma ReachesSelf(g: Graph, a: Node)
    ensures Reaches(g, a, a)
  {
    assert Chain(g, [a]);
  }

  lemma ReachesStep(g: Graph, a: Node, b: Node, c: Node)
    requires Edge(g, a, b) && Reaches(g, b, c)
    ensures Reaches(g, a, c)
  {
    var p :| Chain(g, p) && p[0] == b && p[|p| - 1] == c;
    ChainCons(g, a, p);
    assert ([a] + p)[|p|] == c;
  }

  lemma ChainCons(g: Graph, a: Node, p: seq<Node>)
    requires Chain(g, p) && Edge(g, a, p[0])
    ensures Chain(g, [a] + p)
  {
    var q := [a] + p;
    forall i | 0 <= i < |q| - 1
      ensures Edge(g, q[i], q[i + 1])
    {
      if i > 0 {
        assert q[i] == p[i - 1] && q[i + 1] == p[i];
      }
    }
  }

  /** What is closed under edges and holds the start of a chain holds its end. */
  lemma {:induction false} ClosedAlongChain(g: Graph, s: set<Node>, p: seq<Node>)
    requires Chain(g, p) && p[0] in s
    requires forall a, b :: a in s && Edge(g, a, b) ==> b in s
    ensures p[|p| - 1] in s
  {
    if |p| > 1 {
      assert Edge(g, p[0], p[1]);
      ChainTail(g, p);
      ClosedAlongChain(g, s, p[1..]);
    }
  }

  lemma ChainTail(g: Graph, p: seq<Node>)
    requires Chain(g, p) && |p| > 1
    ensures Chain(g, p[1..])
  {
    var q := p[1..];
    forall i | 0 <= i < |q| - 1
      ensures Edge(g, q[i], q[i + 1])
    {
      assert Edge(g, p[i + 1], p[i + 2]);
    }
  }
}
