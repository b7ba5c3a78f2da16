/** The graph that the emitters build, and which of its properties the order of emissions cannot touch. */
module LibdepsEmission {
  import opened Sequences
  import opened DependencyGraph
  import opened LibdepsOrder
  import opened LibdepsCorrectness
  import opened LibdepsConfluence

  /** An emitter's target is a node or a plain path; paths carry no attributes. */
  datatype Target = Path(name: string) | Object(node: Node)

  datatype VisibilityMap = Ignored | Honored

  function MapKind(m: VisibilityMap, kind: Visibility): Visibility {
    if m.Ignored? then Public else kind
  }

  /** The prerequisites as an emitter with map `m` records them. */
  function Mapped(m: VisibilityMap, deps: seq<Dependency>): seq<Dependency> {
    seq(|deps|, i requires 0 <= i < |deps| => Dependency(deps[i].target, MapKind(m, deps[i].kind)))
  }

  datatype Emission = Emission(target: Target, prereqs: seq<Dependency>)

  function Appended(g: Graph, e: Emission): Graph {
    match e.target
    case Path(_) => g
    case Object(n) => g[n := Direct(g, n) + e.prereqs]
  }

  /** The graph that a series of emissions builds. */
  function Emitted(emissions: seq<Emission>): Graph {
    if emissions == [] then map[]
    else Appended(Emitted(emissions[..|emissions| - 1]), emissions[|emissions| - 1])
  }

  // ----- Counting what was emitted for a node -----

  ghost function Contribution(e: Emission, n: Node): multiset<Dependency> {
    if e.target == Object(n) then multiset(e.prereqs) else multiset{}
  }

  ghost function Total(es: seq<Emission>, n: Node): multiset<Dependency> {
    if es == [] then multiset{} else Total(es[..|es| - 1], n) + Contribution(es[|es| - 1], n)
  }

  lemma {:induction false} EmittedIsTotal(es: seq<Emission>, n: Node)
    ensures multiset(Direct(Emitted(es), n)) == Total(es, n)
    ensures n in Emitted(es) <==> exists e :: e in es && e.target == Object(n)
  {
    if es != [] {
      var init, last := es[..|es| - 1], es[|es| - 1];
      EmittedIsTotal(init, n);
      AppendedCounts(Emitted(init), last, n);
      assert es == init + [last];
    }
  }

  lemma AppendedCounts(g: Graph, e: Emission, n: Node)
    ensures multiset(Direct(Appended(g, e), n)) == multiset(Direct(g, n)) + Contribution(e, n)
    ensures n in Appended(g, e) <==> n in g || e.target == Object(n)
  {
  }

  lemma TotalNothing(n: Node)
    ensures Total([], n) == multiset{}
  {
  }

  lemma TotalPush(es: seq<Emission>, e: Emission, n: Node)
    ensures Total(es + [e], n) == Total(es, n) + Contribution(e, n)
  {
    assert (es + [e])[..|es|] == es;
  }

  lemma {:induction false} TotalConcat(a: seq<Emission>, b: seq<Emission>, n: Node)
    ensures Total(a + b, n) == Total(a, n) + Total(b, n)
  {
    hide Total, Contribution;
    if b == [] {
      assert a + b == a;
      TotalNothing(n);
    } else {
      var init, last := b[..|b| - 1], b[|b| - 1];
      TotalConcat(a, init, n);
      assert init + [last] == b;
      ConcatAssociative(a, init, [last]);
      TotalPush(init, last, n);
      TotalPush(a + init, last, n);
      MultisetAssociative(Total(a, n), Total(init, n), Contribution(last, n));
    }
  }

  lemma TotalWithout(b: seq<Emission>, k: nat, n: Node)
    requires k < |b|
    ensures Total(b, n) == Total([b[k]], n) + Total(Without(b, k), n)
  {
    var lo, e, hi := b[..k], [b[k]], b[k + 1..];
    assert b == lo + (e + hi);
    TotalConcat(lo, e + hi, n);
    TotalConcat(e, hi, n);
    TotalConcat(lo, hi, n);
  }

  lemma {:induction false} TotalOfPermutation(a: seq<Emission>, b: seq<Emission>, n: Node)
    requires multiset(a) == multiset(b)
    ensures Total(a, n) == Total(b, n)
  {
    if a == [] {
      assert |multiset(b)| == 0;
    } else {
      hide Total;
      var k := HeadOccurs(a, b);
      TotalOfPermutation(a[1..], Without(b, k), n);
      TotalWithout(b, k, n);
      TotalConcat([a[0]], a[1..], n);
      assert a == [a[0]] + a[1..];
    }
  }

  /** Whatever order the emitters ran in, every query has the same answer, provided names tell targets apart. */
  lemma EmissionOrderDoesNotMatter(a: seq<Emission>, b: seq<Emission>, root: Node)
    requires multiset(a) == multiset(b) && DistinctNames(Emitted(a))
    ensures Libdeps(Emitted(a), root) == Libdeps(Emitted(b), root)
  {
    var g, h := Emitted(a), Emitted(b);
    forall n
      ensures multiset(Direct(g, n)) == multiset(Direct(h, n))
      ensures n in g <==> n in h
    {
      EmittedIsTotal(a, n);
      EmittedIsTotal(b, n);
      TotalOfPermutation(a, b, n);
      assert forall e :: e in a <==> e in multiset(a);
      assert forall e :: e in b <==> e in multiset(b);
    }
    OrderDoesNotMatter(g, h, root);
  }

  // ----- Emitters that ignore visibility -----

  /** The emission records prerequisites that went through the map `m`. */
  ghost predicate EmittedWith(m: VisibilityMap, e: Emission) {
    exists deps :: e.prereqs == Mapped(m, deps)
  }

  lemma {:induction false} IgnoringEmittersMakePublic(es: seq<Emission>)
    requires forall e :: e in es ==> EmittedWith(Ignored, e)
    ensures VisibilityIgnored(Emitted(es))
  {
    if es != [] {
      var init, last := es[..|es| - 1], es[|es| - 1];
      IgnoringEmittersMakePublic(init);
      assert EmittedWith(Ignored, last);
      var deps :| last.prereqs == Mapped(Ignored, deps);
      forall n, d | d in Direct(Emitted(es), n)
        ensures d.kind == Public
      {
        if d !in Direct(Emitted(init), n) {
          assert d in last.prereqs;
        }
      }
    }
  }

  /** With such emitters, no target is ever in its own list, and a target that needs itself has a cycle. */
  lemma TargetNeverInOwnList(es: seq<Emission>, root: Node)
    requires forall e :: e in es ==> EmittedWith(Ignored, e)
    ensures var r := Libdeps(Emitted(es), root);
            && (r.Sorted? ==> root !in r.order)
            && (Required(Emitted(es), root, root) ==> r.Cycle?)
  {
    var g := Emitted(es);
    IgnoringEmittersMakePublic(es);
    if Libdeps(g, root).Sorted? {
      NotInOwnListWhenIgnored(g, root);
      ListIsRequiredInLinkOrder(g, root);
    }
  }
}
