/** The attribute-path search of utils/print-introspected-doxygen.cc: types,
    the labelled edges between them, and simple paths along these edges. */
module Introspection {
  import opened Graphs

  /** A type is known by its name. */
  datatype TypeId = TypeId(name: string)

  /** What an attribute checker says about the attribute's value. */
  datatype Checker = Pointer(pointee: TypeId) | Container(item: TypeId) | Other

  datatype Attribute = Attribute(name: string, checker: Checker)

  /** The type database: childOf answers IsChildOf, aggregates is the list of
      recorded aggregation pairs, and objectType is the type of Object. */
  datatype Registry = Registry(attributes: map<TypeId, seq<Attribute>>, registered: seq<TypeId>,
                               childOf: set<(TypeId, TypeId)>, aggregates: seq<(TypeId, TypeId)>,
                               objectType: TypeId)

  datatype Edge = Edge(name: string, target: TypeId)

  function AttributesOf(reg: Registry, tid: TypeId): seq<Attribute> {
    if tid in reg.attributes then reg.attributes[tid] else []
  }

  /** An attribute leads on if it holds a pointer, but not a plain Object, or a
      container of pointers. */
  function AttributeEdge(reg: Registry, a: Attribute): seq<Edge> {
    match a.checker
    case Pointer(pointee) => if pointee == reg.objectType then [] else [Edge(a.name, pointee)]
    case Container(item) => [Edge(a.name + "/[i]", item)]
    case Other => []
  }

  function ChildEdge(reg: Registry, tid: TypeId, child: TypeId): seq<Edge> {
    if (child, tid) in reg.childOf then [Edge("$" + child.name, child)] else []
  }

  function AggregateEdge(tid: TypeId, pair: (TypeId, TypeId)): seq<Edge> {
    if pair.1 == tid then [Edge("$" + pair.0.name, pair.0)]
    else if pair.0 == tid then [Edge("$" + pair.1.name, pair.1)]
    else []
  }

  ghost function AttributeEdges(reg: Registry, s: seq<Attribute>): seq<Edge> {
    if s == [] then [] else AttributeEdges(reg, s[..|s| - 1]) + AttributeEdge(reg, s[|s| - 1])
  }

  ghost function ChildEdges(reg: Registry, tid: TypeId, s: seq<TypeId>): seq<Edge> {
    if s == [] then [] else ChildEdges(reg, tid, s[..|s| - 1]) + ChildEdge(reg, tid, s[|s| - 1])
  }

  ghost function AggregateEdges(tid: TypeId, s: seq<(TypeId, TypeId)>): seq<Edge> {
    if s == [] then [] else AggregateEdges(tid, s[..|s| - 1]) + AggregateEdge(tid, s[|s| - 1])
  }

  /** The edges that leave a type, in the order in which they are searched. */
  ghost function Edges(reg: Registry, tid: TypeId): seq<Edge> {
    AttributeEdges(reg, AttributesOf(reg, tid)) + ChildEdges(reg, tid, reg.registered)
    + AggregateEdges(tid, reg.aggregates)
  }

  /** The finite graph of the types that matter. */
  type Graph = map<TypeId, seq<Edge>>

  ghost predicate EdgesAt(reg: Registry, g: Graph, tid: TypeId) {
    tid in g && g[tid] == Edges(reg, tid)
  }

  ghost predicate LeadsInto(g: Graph, edges: seq<Edge>) {
    forall i :: 0 <= i < |edges| ==> edges[i].target in g
  }

  /** No edge leads out of the graph. */
  ghost predicate ClosedGraph(g: Graph) {
    forall tid {:trigger g[tid]} :: tid in g ==> LeadsInto(g, g[tid])
  }

  /** The graph has, for each of its types, the edges of the type database. */
  ghost predicate GraphOf(reg: Registry, g: Graph) {
    ClosedGraph(g) && forall tid {:trigger EdgesAt(reg, g, tid)} :: tid in g ==> EdgesAt(reg, g, tid)
  }

  // ---------- simple paths ----------

  /** A path is the list of the positions of its edges among the edges of the
      types it visits; it may be empty. */
  ghost predicate Along(g: Graph, tid: TypeId, path: seq<nat>)
    decreases |path|
  {
    tid in g && (path == [] || (path[0] < |g[tid]| && Along(g, g[tid][path[0]].target, path[1..])))
  }

  ghost function Visited(g: Graph, tid: TypeId, path: seq<nat>): seq<TypeId>
    requires Along(g, tid, path)
    decreases |path|
  {
    [tid] + if path == [] then [] else Visited(g, g[tid][path[0]].target, path[1..])
  }

  ghost function Labels(g: Graph, tid: TypeId, path: seq<nat>): seq<string>
    requires Along(g, tid, path)
    decreases |path|
  {
    if path == [] then [] else
    var e := g[tid][path[0]];
    [e.name] + Labels(g, e.target, path[1..])
  }

  /** The path meets no type twice. */
  ghost predicate Simple(g: Graph, tid: TypeId, path: seq<nat>) {
    Along(g, tid, path) && Distinct(Visited(g, tid, path))
  }

  /** GetCurrentPath: every label after a slash. */
  function Render(labels: seq<string>): string {
    if labels == [] then "" else Render(labels[..|labels| - 1]) + "/" + labels[|labels| - 1]
  }

  /** What is recorded for a path: the type at its end and its labels. */
  ghost function Entry(g: Graph, tid: TypeId, labels: seq<string>, path: seq<nat>): (TypeId, string)
    requires Along(g, tid, path)
  {
    var v := Visited(g, tid, path);
    (v[|v| - 1], Render(labels + Labels(g, tid, path)))
  }

  // ---------- all simple paths, listed ----------

  ghost function Prefix(i: nat, paths: seq<seq<nat>>): seq<seq<nat>> {
    seq(|paths|, k requires 0 <= k < |paths| => [i] + paths[k])
  }

  /** The simple paths from tid that avoid seen, depth first. */
  ghost function Paths(g: Graph, tid: TypeId, seen: set<TypeId>): seq<seq<nat>>
    requires ClosedGraph(g) && tid in g
    decreases |g.Keys - seen|, 1, 0
  {
    if tid in seen then [] else
    assert g.Keys - (seen + {tid}) == (g.Keys - seen) - {tid};
    [[]] + PathsVia(g, tid, seen, |g[tid]|)
  }

  /** Those whose first edge is among the first n. */
  ghost function PathsVia(g: Graph, tid: TypeId, seen: set<TypeId>, n: nat): seq<seq<nat>>
    requires ClosedGraph(g) && tid in g && tid !in seen && n <= |g[tid]|
    decreases |g.Keys - seen|, 0, n
  {
    if n == 0 then [] else
    assert g.Keys - (seen + {tid}) == (g.Keys - seen) - {tid};
    PathsVia(g, tid, seen, n - 1) + Prefix(n - 1, Paths(g, g[tid][n - 1].target, seen + {tid}))
  }

  /** The path is simple and avoids seen. */
  ghost predicate Avoids(g: Graph, tid: TypeId, seen: set<TypeId>, path: seq<nat>) {
    Simple(g, tid, path) && forall v :: v in Visited(g, tid, path) ==> v !in seen
  }

  lemma DistinctCons<T>(x: T, s: seq<T>)
    ensures Distinct([x] + s) <==> Distinct(s) && x !in s
  {
    var t := [x] + s;
    assert forall k :: 0 <= k < |s| ==> t[k + 1] == s[k];
    if Distinct(t) {
      assert forall k :: 0 <= k < |s| ==> s[k] == t[k + 1] != t[0];
    }
  }

  lemma AvoidsStep(g: Graph, tid: TypeId, seen: set<TypeId>, path: seq<nat>)
    requires tid in g
    ensures Avoids(g, tid, seen, path) <==>
            tid !in seen && (path == [] ||
              (path[0] < |g[tid]| && Avoids(g, g[tid][path[0]].target, seen + {tid}, path[1..])))
  {
    if path != [] && Along(g, tid, path) {
      var v := Visited(g, g[tid][path[0]].target, path[1..]);
      assert Visited(g, tid, path) == [tid] + v;
      DistinctCons(tid, v);
      assert forall y :: y in [tid] + v <==> y == tid || y in v;
    }
  }

  lemma {:induction false} PathsExact(g: Graph, tid: TypeId, seen: set<TypeId>, path: seq<nat>)
    requires ClosedGraph(g) && tid in g
    ensures path in Paths(g, tid, seen) <==> Avoids(g, tid, seen, path)
    decreases |g.Keys - seen|, 1, 0
  {
    AvoidsStep(g, tid, seen, path);
    if tid !in seen {
      assert g.Keys - (seen + {tid}) == (g.Keys - seen) - {tid};
      PathsViaExact(g, tid, seen, |g[tid]|, path);
    }
  }

  lemma {:induction false} PathsViaExact(g: Graph, tid: TypeId, seen: set<TypeId>, n: nat,
                                         path: seq<nat>)
    requires ClosedGraph(g) && tid in g && tid !in seen && n <= |g[tid]|
    ensures path in PathsVia(g, tid, seen, n) <==> path != [] && path[0] < n && Avoids(g, tid, seen, path)
    decreases |g.Keys - seen|, 0, n
  {
    AvoidsStep(g, tid, seen, path);
    if n > 0 {
      assert g.Keys - (seen + {tid}) == (g.Keys - seen) - {tid};
      var ps := Paths(g, g[tid][n - 1].target, seen + {tid});
      PathsViaExact(g, tid, seen, n - 1, path);
      InPrefix(n - 1, ps, path);
      if path != [] {
        PathsExact(g, g[tid][n - 1].target, seen + {tid}, path[1..]);
      }
    }
  }

  lemma InPrefix(i: nat, paths: seq<seq<nat>>, path: seq<nat>)
    ensures path in Prefix(i, paths) <==> path != [] && path[0] == i && path[1..] in paths
  {
    if path in Prefix(i, paths) {
      var k :| 0 <= k < |paths| && [i] + paths[k] == path;
      assert path[1..] == paths[k];
    }
    if path != [] && path[0] == i && path[1..] in paths {
      var k :| 0 <= k < |paths| && paths[k] == path[1..];
      assert Prefix(i, paths)[k] == [i] + path[1..] == path;
    }
  }

  lemma {:induction false} PathsOnce(g: Graph, tid: TypeId, seen: set<TypeId>)
    requires ClosedGraph(g) && tid in g
    ensures Distinct(Paths(g, tid, seen))
    decreases |g.Keys - seen|, 1, 0
  {
    if tid !in seen {
      assert g.Keys - (seen + {tid}) == (g.Keys - seen) - {tid};
      var n := |g[tid]|;
      PathsViaOnce(g, tid, seen, n);
      PathsViaExact(g, tid, seen, n, []);
      var ps := PathsVia(g, tid, seen, n);
      assert forall k :: 0 <= k < |ps| ==> ps[k] in ps;
    }
  }

  lemma {:induction false} PathsViaOnce(g: Graph, tid: TypeId, seen: set<TypeId>, n: nat)
    requires ClosedGraph(g) && tid in g && tid !in seen && n <= |g[tid]|
    ensures Distinct(PathsVia(g, tid, seen, n))
    decreases |g.Keys - seen|, 0, n
  {
    if n > 0 {
      assert g.Keys - (seen + {tid}) == (g.Keys - seen) - {tid};
      var ps := Paths(g, g[tid][n - 1].target, seen + {tid});
      var qs := PathsVia(g, tid, seen, n - 1);
      PathsViaOnce(g, tid, seen, n - 1);
      PathsOnce(g, g[tid][n - 1].target, seen + {tid});
      PrefixOnce(n - 1, ps);
      forall k | 0 <= k < |qs| ensures qs[k] !in Prefix(n - 1, ps) {
        assert qs[k] in qs;
        PathsViaExact(g, tid, seen, n - 1, qs[k]);
        InPrefix(n - 1, ps, qs[k]);
      }
      JoinDistinct(qs, Prefix(n - 1, ps));
    }
  }

  lemma PrefixOnce(i: nat, paths: seq<seq<nat>>)
    requires Distinct(paths)
    ensures Distinct(Prefix(i, paths))
  {
    forall j, k | 0 <= j < k < |paths| ensures [i] + paths[j] != [i] + paths[k] {
      assert ([i] + paths[j])[1..] == paths[j] && ([i] + paths[k])[1..] == paths[k];
    }
  }

  // ---------- depth first ----------

  /** Dictionary order: a path comes before its extensions. */
  ghost predicate LexLess(p: seq<nat>, q: seq<nat>)
    decreases |p|
  {
    q != [] && (p == [] || p[0] < q[0] || (p[0] == q[0] && LexLess(p[1..], q[1..])))
  }

  ghost predicate InLexOrder(paths: seq<seq<nat>>) {
    forall j, k :: 0 <= j < k < |paths| ==> LexLess(paths[j], paths[k])
  }

  lemma LexJoin(a: seq<seq<nat>>, b: seq<seq<nat>>)
    requires InLexOrder(a) && InLexOrder(b)
    requires forall j, k :: 0 <= j < |a| && 0 <= k < |b| ==> LexLess(a[j], b[k])
    ensures InLexOrder(a + b)
  {
  }

  lemma PrefixInOrder(i: nat, paths: seq<seq<nat>>)
    requires InLexOrder(paths)
    ensures InLexOrder(Prefix(i, paths))
  {
    forall j, k | 0 <= j < k < |paths| ensures LexLess([i] + paths[j], [i] + paths[k]) {
      assert ([i] + paths[j])[1..] == paths[j] && ([i] + paths[k])[1..] == paths[k];
    }
  }

  /** The search is depth first: the paths come in dictionary order. */
  lemma {:induction false} PathsInOrder(g: Graph, tid: TypeId, seen: set<TypeId>)
    requires ClosedGraph(g) && tid in g
    ensures InLexOrder(Paths(g, tid, seen))
    decreases |g.Keys - seen|, 1, 0
  {
    if tid !in seen {
      assert g.Keys - (seen + {tid}) == (g.Keys - seen) - {tid};
      var ps := PathsVia(g, tid, seen, |g[tid]|);
      PathsViaInOrder(g, tid, seen, |g[tid]|);
      forall k | 0 <= k < |ps| ensures LexLess([], ps[k]) {
        assert ps[k] in ps;
        PathsViaExact(g, tid, seen, |g[tid]|, ps[k]);
      }
      LexJoin([[]], ps);
    }
  }

  lemma {:induction false} PathsViaInOrder(g: Graph, tid: TypeId, seen: set<TypeId>, n: nat)
    requires ClosedGraph(g) && tid in g && tid !in seen && n <= |g[tid]|
    ensures InLexOrder(PathsVia(g, tid, seen, n))
    decreases |g.Keys - seen|, 0, n
  {
    if n > 0 {
      assert g.Keys - (seen + {tid}) == (g.Keys - seen) - {tid};
      var ps, qs := Paths(g, g[tid][n - 1].target, seen + {tid}), PathsVia(g, tid, seen, n - 1);
      PathsViaInOrder(g, tid, seen, n - 1);
      PathsInOrder(g, g[tid][n - 1].target, seen + {tid});
      PrefixInOrder(n - 1, ps);
      forall j, k | 0 <= j < |qs| && 0 <= k < |ps| ensures LexLess(qs[j], [n - 1] + ps[k]) {
        assert qs[j] in qs;
        PathsViaExact(g, tid, seen, n - 1, qs[j]);
      }
      LexJoin(qs, Prefix(n - 1, ps));
    }
  }
}
