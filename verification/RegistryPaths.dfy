/** Attribute paths read off the type database of
    utils/print-introspected-doxygen.cc, without the graph. */
module RegistryPaths {
  import opened Basics
  import opened Graphs
  import opened Introspection

  /** Where an edge comes from: an attribute (0), a registered type (1) or an
      aggregation pair (2), and its position. */
  type Source = (nat, nat)

  /** The type database leads from a to b with this label: by an attribute that
      points to b, which is not a plain Object, by one that holds a container of
      b, because b is a registered child of a, or because both are aggregated. */
  ghost predicate StepFrom(reg: Registry, a: TypeId, src: Source, tag: string, b: TypeId) {
    match src.0
    case 0 =>
      a in reg.attributes && src.1 < |reg.attributes[a]| &&
      var attribute := reg.attributes[a][src.1];
      || (attribute.checker == Pointer(b) && b != reg.objectType && tag == attribute.name)
      || (attribute.checker == Container(b) && tag == attribute.name + "/[i]")
    case 1 =>
      src.1 < |reg.registered| && reg.registered[src.1] == b && (b, a) in reg.childOf && tag == "$" + b.name
    case 2 =>
      src.1 < |reg.aggregates| && (reg.aggregates[src.1] == (a, b) || reg.aggregates[src.1] == (b, a))
      && tag == "$" + b.name
    case _ => false
  }

  ghost predicate Step(reg: Registry, a: TypeId, tag: string, b: TypeId) {
    exists src :: StepFrom(reg, a, src, tag, b)
  }

  ghost predicate Before(s: Source, t: Source) {
    s.0 < t.0 || (s.0 == t.0 && s.1 < t.1)
  }

  /** The edges come from these sources, in order; and no source up to the given
      bound is left out. */
  ghost predicate From(reg: Registry, a: TypeId, edges: seq<Edge>, srcs: seq<Source>, bound: Source) {
    && |srcs| == |edges|
    && (forall n :: 0 <= n < |edges| ==>
          StepFrom(reg, a, srcs[n], edges[n].name, edges[n].target) && Before(srcs[n], bound))
    && (forall m, n :: 0 <= m < n < |srcs| ==> Before(srcs[m], srcs[n]))
    && forall src, tag, b :: StepFrom(reg, a, src, tag, b) && Before(src, bound) ==> src in srcs
  }

  lemma OneMore(reg: Registry, a: TypeId, edges: seq<Edge>, srcs: seq<Source>, src: Source, more: seq<Edge>)
    returns (all: seq<Source>)
    requires From(reg, a, edges, srcs, src) && |more| <= 1
    requires more != [] ==> StepFrom(reg, a, src, more[0].name, more[0].target)
    requires forall tag, b :: StepFrom(reg, a, src, tag, b) ==> more != []
    ensures From(reg, a, edges + more, all, (src.0, src.1 + 1))
  {
    all := srcs + if more == [] then [] else [src];
    var next := (src.0, src.1 + 1);
    forall s, tag, b | StepFrom(reg, a, s, tag, b) && Before(s, next) ensures s in all {
      assert s == src || Before(s, src);
    }
  }

  lemma NextKind(reg: Registry, a: TypeId, edges: seq<Edge>, srcs: seq<Source>, kind: nat, n: nat)
    requires From(reg, a, edges, srcs, (kind, n))
    requires forall s: Source, tag, b :: StepFrom(reg, a, s, tag, b) && s.0 == kind ==> s.1 < n
    ensures From(reg, a, edges, srcs, (kind + 1, 0))
  {
    forall s: Source, tag, b | StepFrom(reg, a, s, tag, b) && Before(s, (kind + 1, 0)) ensures s in srcs {
      assert Before(s, (kind, n));
    }
  }

  lemma {:induction false} AttributeSources(reg: Registry, a: TypeId, i: nat) returns (srcs: seq<Source>)
    requires i <= |AttributesOf(reg, a)|
    ensures From(reg, a, AttributeEdges(reg, AttributesOf(reg, a)[..i]), srcs, (0, i))
  {
    var attributes := AttributesOf(reg, a);
    if i == 0 {
      srcs := [];
    } else {
      srcs := AttributeSources(reg, a, i - 1);
      assert attributes[..i][..i - 1] == attributes[..i - 1];
      srcs := OneMore(reg, a, AttributeEdges(reg, attributes[..i - 1]), srcs, (0, i - 1),
                      AttributeEdge(reg, attributes[i - 1]));
    }
  }

  lemma {:induction false} ChildSources(reg: Registry, a: TypeId, edges: seq<Edge>, first: seq<Source>, j: nat)
    returns (srcs: seq<Source>)
    requires j <= |reg.registered| && From(reg, a, edges, first, (1, 0))
    ensures From(reg, a, edges + ChildEdges(reg, a, reg.registered[..j]), srcs, (1, j))
  {
    if j == 0 {
      assert edges + [] == edges;
      srcs := first;
    } else {
      srcs := ChildSources(reg, a, edges, first, j - 1);
      assert reg.registered[..j][..j - 1] == reg.registered[..j - 1];
      var before, more := ChildEdges(reg, a, reg.registered[..j - 1]), ChildEdge(reg, a, reg.registered[j - 1]);
      srcs := OneMore(reg, a, edges + before, srcs, (1, j - 1), more);
      Associate(edges, before, more);
    }
  }

  lemma {:induction false} AggregateSources(reg: Registry, a: TypeId, edges: seq<Edge>, first: seq<Source>, j: nat)
    returns (srcs: seq<Source>)
    requires j <= |reg.aggregates| && From(reg, a, edges, first, (2, 0))
    ensures From(reg, a, edges + AggregateEdges(a, reg.aggregates[..j]), srcs, (2, j))
  {
    if j == 0 {
      assert edges + [] == edges;
      srcs := first;
    } else {
      srcs := AggregateSources(reg, a, edges, first, j - 1);
      assert reg.aggregates[..j][..j - 1] == reg.aggregates[..j - 1];
      var before, more := AggregateEdges(a, reg.aggregates[..j - 1]), AggregateEdge(a, reg.aggregates[j - 1]);
      srcs := OneMore(reg, a, edges + before, srcs, (2, j - 1), more);
      Associate(edges, before, more);
    }
  }

  /** The edges of a type, in the order in which they are searched, are exactly
      its steps: attributes first, then registered types, then aggregation
      pairs, each kind in the order of the type database. */
  lemma EdgesInOrder(reg: Registry, a: TypeId) returns (srcs: seq<Source>)
    ensures From(reg, a, Edges(reg, a), srcs, (3, 0))
  {
    var attributes := AttributesOf(reg, a);
    srcs := AttributeSources(reg, a, |attributes|);
    assert attributes[..|attributes|] == attributes;
    var e0 := AttributeEdges(reg, attributes);
    NextKind(reg, a, e0, srcs, 0, |attributes|);
    srcs := ChildSources(reg, a, e0, srcs, |reg.registered|);
    assert reg.registered[..|reg.registered|] == reg.registered;
    var e1 := e0 + ChildEdges(reg, a, reg.registered);
    NextKind(reg, a, e1, srcs, 1, |reg.registered|);
    srcs := AggregateSources(reg, a, e1, srcs, |reg.aggregates|);
    assert reg.aggregates[..|reg.aggregates|] == reg.aggregates;
    NextKind(reg, a, Edges(reg, a), srcs, 2, |reg.aggregates|);
  }

  lemma EdgeIsStep(reg: Registry, a: TypeId, tag: string, b: TypeId)
    ensures Edge(tag, b) in Edges(reg, a) <==> Step(reg, a, tag, b)
  {
    var edges := Edges(reg, a);
    var srcs := EdgesInOrder(reg, a);
    if Edge(tag, b) in edges {
      var n: nat :| n < |edges| && edges[n] == Edge(tag, b);
      assert StepFrom(reg, a, srcs[n], tag, b);
    }
    if src :| StepFrom(reg, a, src, tag, b) {
      assert Before(src, (3, 0)) && src in srcs;
      var n: nat :| n < |srcs| && srcs[n] == src;
      OneTarget(reg, a, src, tag, b, edges[n].name, edges[n].target);
    }
  }

  /** A source gives one step only. */
  lemma OneTarget(reg: Registry, a: TypeId, src: Source, tag: string, b: TypeId, tag2: string, b2: TypeId)
    requires StepFrom(reg, a, src, tag, b) && StepFrom(reg, a, src, tag2, b2)
    ensures tag == tag2 && b == b2
  {
  }

  // ---------- chains ----------

  ghost predicate Chain(reg: Registry, types: seq<TypeId>, labels: seq<string>) {
    |types| == |labels| + 1 && forall i :: 0 <= i < |labels| ==> Step(reg, types[i], labels[i], types[i + 1])
  }

  /** There is a chain of steps through distinct types from the root to t whose
      labels, each after a slash, make s. */
  ghost predicate Reaches(reg: Registry, root: TypeId, t: TypeId, s: string) {
    exists types, labels ::
      && Chain(reg, types, labels) && Distinct(types) && types[0] == root && types[|types| - 1] == t
      && s == Render(labels)
  }

  lemma ChainCons(reg: Registry, a: TypeId, tag: string, types: seq<TypeId>, labels: seq<string>)
    requires types != []
    ensures Chain(reg, [a] + types, [tag] + labels) <==> Step(reg, a, tag, types[0]) && Chain(reg, types, labels)
  {
    var ts, ls := [a] + types, [tag] + labels;
    if Chain(reg, ts, ls) {
      assert ls[0] == tag && ts[1] == types[0];
      forall i | 0 <= i < |labels| ensures Step(reg, types[i], labels[i], types[i + 1]) {
        assert ls[i + 1] == labels[i] && ts[i + 1] == types[i] && ts[i + 2] == types[i + 1];
      }
    }
    if Step(reg, a, tag, types[0]) && Chain(reg, types, labels) {
      forall i | 0 <= i < |ls| ensures Step(reg, ts[i], ls[i], ts[i + 1]) {
        assert i > 0 ==> ls[i] == labels[i - 1] && ts[i] == types[i - 1] && ts[i + 1] == types[i];
      }
    }
  }

  /** A path in the graph is a chain of steps. */
  lemma {:induction false} PathIsChain(reg: Registry, g: Graph, a: TypeId, path: seq<nat>)
    requires GraphOf(reg, g) && Along(g, a, path)
    ensures Visited(g, a, path) != [] && Visited(g, a, path)[0] == a
    ensures Chain(reg, Visited(g, a, path), Labels(g, a, path))
    decreases |path|
  {
    if path != [] {
      var e := g[a][path[0]];
      assert EdgesAt(reg, g, a) && e in Edges(reg, a);
      EdgeIsStep(reg, a, e.name, e.target);
      PathIsChain(reg, g, e.target, path[1..]);
      ChainCons(reg, a, e.name, Visited(g, e.target, path[1..]), Labels(g, e.target, path[1..]));
    }
  }

  /** And every chain of steps is a path. */
  lemma {:induction false} ChainIsPath(reg: Registry, g: Graph, types: seq<TypeId>, labels: seq<string>)
    returns (path: seq<nat>)
    requires GraphOf(reg, g) && Chain(reg, types, labels) && types[0] in g
    ensures Along(g, types[0], path) && Visited(g, types[0], path) == types && Labels(g, types[0], path) == labels
    decreases |labels|
  {
    var a := types[0];
    if labels == [] {
      path := [];
      assert types == [a];
    } else {
      var rest, tag := types[1..], labels[0];
      assert types == [a] + rest && labels == [tag] + labels[1..];
      ChainCons(reg, a, tag, rest, labels[1..]);
      EdgeIsStep(reg, a, tag, rest[0]);
      assert EdgesAt(reg, g, a) && LeadsInto(g, g[a]);
      var n: nat :| n < |g[a]| && g[a][n] == Edge(tag, rest[0]);
      var tail := ChainIsPath(reg, g, rest, labels[1..]);
      path := [n] + tail;
      assert path[1..] == tail;
    }
  }

  /** The entries for all simple paths from the root are the types that it
      reaches, with the labels. */
  lemma EntriesAreReached(reg: Registry, g: Graph, root: TypeId, t: TypeId, s: string)
    requires GraphOf(reg, g) && root in g
    ensures (exists path :: Simple(g, root, path) && Entry(g, root, [], path) == (t, s)) <==> Reaches(reg, root, t, s)
  {
    if path :| Simple(g, root, path) && Entry(g, root, [], path) == (t, s) {
      PathIsChain(reg, g, root, path);
      assert [] + Labels(g, root, path) == Labels(g, root, path);
    }
    if Reaches(reg, root, t, s) {
      var types, labels :|
        && Chain(reg, types, labels) && Distinct(types) && types[0] == root && types[|types| - 1] == t
        && s == Render(labels);
      var path := ChainIsPath(reg, g, types, labels);
      assert [] + labels == labels;
      assert Simple(g, root, path) && Entry(g, root, [], path) == (t, s);
    }
  }

  /** Every label stands after a slash. */
  lemma RenderTwo(a: string, b: string)
    ensures Render([]) == "" && Render([a]) == "/" + a && Render([a, b]) == "/" + a + "/" + b
  {
    assert [a][..0] == [] && [a, b][..1] == [a];
  }
}
