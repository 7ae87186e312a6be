/** The class StaticInformation of utils/print-introspected-doxygen.cc: a
    recursive search that pushes and pops two stacks. */
module StaticInfo {
  import opened Basics
  import opened Graphs
  import opened Introspection
  import opened RegistryPaths

  /** What DoGather appends for tid when seen is on the stack. */
  ghost function Found(g: Graph, tid: TypeId, seen: set<TypeId>, labels: seq<string>):
    seq<(TypeId, string)>
    requires ClosedGraph(g) && tid in g
    decreases |g.Keys - seen|, 1, 0
  {
    if tid in seen then [] else
    assert g.Keys - (seen + {tid}) == (g.Keys - seen) - {tid};
    FoundVia(g, tid, seen, labels, |g[tid]|)
  }

  /** What it has appended after searching the first n edges of tid. */
  ghost function FoundVia(g: Graph, tid: TypeId, seen: set<TypeId>, labels: seq<string>, n: nat):
    seq<(TypeId, string)>
    requires ClosedGraph(g) && tid in g && tid !in seen && n <= |g[tid]|
    decreases |g.Keys - seen|, 0, n
  {
    if n == 0 then [(tid, Render(labels))] else
    assert g.Keys - (seen + {tid}) == (g.Keys - seen) - {tid};
    var e := g[tid][n - 1];
    FoundVia(g, tid, seen, labels, n - 1) + Found(g, e.target, seen + {tid}, labels + [e.name])
  }

  /** Searching one more edge appends what the search from its target finds. */
  lemma OneMoreEdge(g: Graph, tid: TypeId, seen: set<TypeId>, labels: seq<string>, n: nat, start: seq<(TypeId, string)>)
    requires ClosedGraph(g) && tid in g && tid !in seen && n < |g[tid]|
    ensures start + FoundVia(g, tid, seen, labels, n + 1) ==
            start + FoundVia(g, tid, seen, labels, n)
            + Found(g, g[tid][n].target, seen + {tid}, labels + [g[tid][n].name])
  {
    Associate(start, FoundVia(g, tid, seen, labels, n),
              Found(g, g[tid][n].target, seen + {tid}, labels + [g[tid][n].name]));
  }

  // ---------- where in the edge list the three loops are ----------

  lemma {:induction false} AttributePrefix(reg: Registry, s: seq<Attribute>, i: nat)
    requires i <= |s|
    ensures AttributeEdges(reg, s[..i]) <= AttributeEdges(reg, s)
  {
    if i < |s| {
      AttributePrefix(reg, s[..|s| - 1], i);
      assert s[..|s| - 1][..i] == s[..i];
    } else {
      assert s[..i] == s;
    }
  }

  lemma {:induction false} ChildPrefix(reg: Registry, tid: TypeId, s: seq<TypeId>, i: nat)
    requires i <= |s|
    ensures ChildEdges(reg, tid, s[..i]) <= ChildEdges(reg, tid, s)
  {
    if i < |s| {
      ChildPrefix(reg, tid, s[..|s| - 1], i);
      assert s[..|s| - 1][..i] == s[..i];
    } else {
      assert s[..i] == s;
    }
  }

  lemma {:induction false} AggregatePrefix(tid: TypeId, s: seq<(TypeId, TypeId)>, i: nat)
    requires i <= |s|
    ensures AggregateEdges(tid, s[..i]) <= AggregateEdges(tid, s)
  {
    if i < |s| {
      AggregatePrefix(tid, s[..|s| - 1], i);
      assert s[..|s| - 1][..i] == s[..i];
    } else {
      assert s[..i] == s;
    }
  }

  /** How many edges of tid come before its i-th attribute, before the j-th
      registered type, and before the j-th aggregation pair. */
  ghost function AttributePos(reg: Registry, tid: TypeId, i: nat): nat
    requires i <= |AttributesOf(reg, tid)|
  {
    |AttributeEdges(reg, AttributesOf(reg, tid)[..i])|
  }

  ghost function ChildPos(reg: Registry, tid: TypeId, j: nat): nat
    requires j <= |reg.registered|
  {
    AttributePos(reg, tid, |AttributesOf(reg, tid)|) + |ChildEdges(reg, tid, reg.registered[..j])|
  }

  ghost function AggregatePos(reg: Registry, tid: TypeId, j: nat): nat
    requires j <= |reg.aggregates|
  {
    ChildPos(reg, tid, |reg.registered|) + |AggregateEdges(tid, reg.aggregates[..j])|
  }

  lemma Positions(reg: Registry, g: Graph, tid: TypeId)
    requires EdgesAt(reg, g, tid)
    ensures AttributePos(reg, tid, 0) == 0
    ensures ChildPos(reg, tid, 0) == AttributePos(reg, tid, |AttributesOf(reg, tid)|)
    ensures AggregatePos(reg, tid, 0) == ChildPos(reg, tid, |reg.registered|)
    ensures AggregatePos(reg, tid, |reg.aggregates|) == |g[tid]|
  {
    assert AttributesOf(reg, tid)[..|AttributesOf(reg, tid)|] == AttributesOf(reg, tid);
    assert reg.registered[..|reg.registered|] == reg.registered;
    assert reg.aggregates[..|reg.aggregates|] == reg.aggregates;
  }

  /** The edge e, if there is one, is the n-th of tid, and m is the next position. */
  ghost predicate Position(g: Graph, tid: TypeId, n: nat, e: seq<Edge>, m: nat) {
    tid in g && m == n + |e| && m <= |g[tid]| && |e| <= 1 && (e != [] ==> g[tid][n] == e[0])
  }

  lemma NextAttribute(reg: Registry, g: Graph, tid: TypeId, i: nat)
    requires EdgesAt(reg, g, tid) && i < |AttributesOf(reg, tid)|
    ensures Position(g, tid, AttributePos(reg, tid, i), AttributeEdge(reg, AttributesOf(reg, tid)[i]),
                     AttributePos(reg, tid, i + 1))
  {
    var s := AttributesOf(reg, tid);
    assert s[..i + 1][..i] == s[..i];
    AttributePrefix(reg, s, i + 1);
  }

  lemma NextChild(reg: Registry, g: Graph, tid: TypeId, j: nat)
    requires EdgesAt(reg, g, tid) && j < |reg.registered|
    ensures Position(g, tid, ChildPos(reg, tid, j), ChildEdge(reg, tid, reg.registered[j]), ChildPos(reg, tid, j + 1))
  {
    var s := reg.registered;
    assert s[..j + 1][..j] == s[..j];
    ChildPrefix(reg, tid, s, j + 1);
    Positions(reg, g, tid);
    assert AttributesOf(reg, tid)[..|AttributesOf(reg, tid)|] == AttributesOf(reg, tid);
  }

  lemma NextAggregate(reg: Registry, g: Graph, tid: TypeId, j: nat)
    requires EdgesAt(reg, g, tid) && j < |reg.aggregates|
    ensures Position(g, tid, AggregatePos(reg, tid, j), AggregateEdge(tid, reg.aggregates[j]),
                     AggregatePos(reg, tid, j + 1))
  {
    var s := reg.aggregates;
    assert s[..j + 1][..j] == s[..j];
    AggregatePrefix(tid, s, j + 1);
    Positions(reg, g, tid);
    assert AttributesOf(reg, tid)[..|AttributesOf(reg, tid)|] == AttributesOf(reg, tid);
    assert reg.registered[..|reg.registered|] == reg.registered;
  }

  lemma PushType(g: Graph, stack: seq<TypeId>, tid: TypeId)
    requires tid in g && tid !in Range(stack) && Distinct(stack) && Range(stack) <= g.Keys
    ensures Distinct(stack + [tid]) && Range(stack + [tid]) == Range(stack) + {tid} <= g.Keys
    ensures |g.Keys - Range(stack + [tid])| < |g.Keys - Range(stack)|
  {
    assert Range(stack + [tid]) == Range(stack) + {tid};
    assert g.Keys - Range(stack + [tid]) == (g.Keys - Range(stack)) - {tid};
  }

  class StaticInformation {
    const registry: Registry
    var output: seq<(TypeId, string)>
    var currentPath: seq<string>
    var alreadyProcessed: seq<TypeId>

    constructor (reg: Registry)
      ensures registry == reg && output == [] && currentPath == [] && alreadyProcessed == []
    {
      registry := reg;
      output, currentPath, alreadyProcessed := [], [], [];
    }

    /** The stacks are equally high, and the types under way are distinct. */
    ghost predicate Valid(g: Graph)
      reads this
    {
      && GraphOf(registry, g) && |currentPath| == |alreadyProcessed|
      && Distinct(alreadyProcessed) && Range(alreadyProcessed) <= g.Keys
    }

    method HasAlreadyBeenProcessed(tid: TypeId) returns (found: bool)
      ensures found <==> tid in alreadyProcessed
    {
      for i := 0 to |alreadyProcessed|
        invariant tid !in alreadyProcessed[..i]
      {
        if alreadyProcessed[i] == tid {
          return true;
        }
      }
      return false;
    }

    method GetCurrentPath() returns (path: string)
      ensures path == Render(currentPath)
    {
      path := "";
      for i := 0 to |currentPath|
        invariant path == Render(currentPath[..i])
      {
        assert currentPath[..i + 1][..i] == currentPath[..i];
        path := path + "/" + currentPath[i];
      }
      assert currentPath[..|currentPath|] == currentPath;
    }

    method RecordOutput(tid: TypeId)
      modifies this`output
      ensures output == old(output) + [(tid, Render(currentPath))]
    {
      var path := GetCurrentPath();
      output := output + [(tid, path)];
    }

    /** The search of tid has appended to start what its first n edges lead to;
        the stacks are as they were when it began. */
    ghost predicate Searched(g: Graph, tid: TypeId, n: nat, start: seq<(TypeId, string)>,
                             path: seq<string>, stack: seq<TypeId>)
      reads this
    {
      && Valid(g) && EdgesAt(registry, g, tid) && tid !in Range(stack) && n <= |g[tid]|
      && currentPath == path && alreadyProcessed == stack
      && output == start + FoundVia(g, tid, Range(stack), path, n)
    }

    /** Push the label and the type under way, search, and pop again. */
    method Follow(name: string, target: TypeId, tid: TypeId, ghost g: Graph, ghost n: nat,
                  ghost start: seq<(TypeId, string)>, ghost path: seq<string>, ghost stack: seq<TypeId>)
      requires Searched(g, tid, n, start, path, stack) && Position(g, tid, n, [Edge(name, target)], n + 1)
      modifies this
      ensures Searched(g, tid, n + 1, start, path, stack)
      decreases |g.Keys - Range(stack)|, 0
    {
      PushType(g, stack, tid);
      currentPath := currentPath + [name];
      alreadyProcessed := alreadyProcessed + [tid];
      DoGather(target, g);
      assert alreadyProcessed[..|alreadyProcessed| - 1] == stack;
      assert currentPath[..|currentPath| - 1] == path;
      alreadyProcessed := alreadyProcessed[..|alreadyProcessed| - 1];
      currentPath := currentPath[..|currentPath| - 1];
      OneMoreEdge(g, tid, Range(stack), path, n, start);
    }

    method FollowAttribute(info: Attribute, tid: TypeId, ghost g: Graph, ghost n: nat, ghost m: nat,
                           ghost start: seq<(TypeId, string)>, ghost path: seq<string>, ghost stack: seq<TypeId>)
      requires Searched(g, tid, n, start, path, stack) && Position(g, tid, n, AttributeEdge(registry, info), m)
      modifies this
      ensures Searched(g, tid, m, start, path, stack)
      decreases |g.Keys - Range(stack)|, 1
    {
      match info.checker
      case Pointer(pointee) =>
        if pointee != registry.objectType {
          Follow(info.name, pointee, tid, g, n, start, path, stack);
        }
      case Container(item) =>
        Follow(info.name + "/[i]", item, tid, g, n, start, path, stack);
      case Other =>
    }

    /** The loop over the attributes. */
    method SearchAttributes(tid: TypeId, ghost g: Graph, ghost start: seq<(TypeId, string)>,
                            ghost path: seq<string>, ghost stack: seq<TypeId>)
      requires EdgesAt(registry, g, tid) && Searched(g, tid, AttributePos(registry, tid, 0), start, path, stack)
      modifies this
      ensures Searched(g, tid, AttributePos(registry, tid, |AttributesOf(registry, tid)|), start, path, stack)
      decreases |g.Keys - Range(stack)|, 2
    {
      var attributes := AttributesOf(registry, tid);
      for i := 0 to |attributes|
        invariant Searched(g, tid, AttributePos(registry, tid, i), start, path, stack)
      {
        NextAttribute(registry, g, tid, i);
        FollowAttribute(attributes[i], tid, g, AttributePos(registry, tid, i), AttributePos(registry, tid, i + 1),
                        start, path, stack);
      }
    }

    /** The loop over the registered types. */
    method SearchChildren(tid: TypeId, ghost g: Graph, ghost start: seq<(TypeId, string)>,
                          ghost path: seq<string>, ghost stack: seq<TypeId>)
      requires EdgesAt(registry, g, tid) && Searched(g, tid, ChildPos(registry, tid, 0), start, path, stack)
      modifies this
      ensures Searched(g, tid, ChildPos(registry, tid, |registry.registered|), start, path, stack)
      decreases |g.Keys - Range(stack)|, 2
    {
      for j := 0 to |registry.registered|
        invariant Searched(g, tid, ChildPos(registry, tid, j), start, path, stack)
      {
        NextChild(registry, g, tid, j);
        var child := registry.registered[j];
        if (child, tid) in registry.childOf {
          Follow("$" + child.name, child, tid, g, ChildPos(registry, tid, j), start, path, stack);
        }
      }
    }

    method FollowPair(pair: (TypeId, TypeId), tid: TypeId, ghost g: Graph, ghost n: nat, ghost m: nat,
                      ghost start: seq<(TypeId, string)>, ghost path: seq<string>, ghost stack: seq<TypeId>)
      requires Searched(g, tid, n, start, path, stack) && Position(g, tid, n, AggregateEdge(tid, pair), m)
      modifies this
      ensures Searched(g, tid, m, start, path, stack)
      decreases |g.Keys - Range(stack)|, 1
    {
      if pair.0 == tid || pair.1 == tid {
        var other := tid;
        if pair.0 == tid {
          other := pair.1;
        }
        if pair.1 == tid {
          other := pair.0;
        }
        Follow("$" + other.name, other, tid, g, n, start, path, stack);
      }
    }

    /** The loop over the aggregation pairs. */
    method SearchAggregates(tid: TypeId, ghost g: Graph, ghost start: seq<(TypeId, string)>,
                            ghost path: seq<string>, ghost stack: seq<TypeId>)
      requires EdgesAt(registry, g, tid) && Searched(g, tid, AggregatePos(registry, tid, 0), start, path, stack)
      modifies this
      ensures Searched(g, tid, AggregatePos(registry, tid, |registry.aggregates|), start, path, stack)
      decreases |g.Keys - Range(stack)|, 2
    {
      for j := 0 to |registry.aggregates|
        invariant Searched(g, tid, AggregatePos(registry, tid, j), start, path, stack)
      {
        NextAggregate(registry, g, tid, j);
        FollowPair(registry.aggregates[j], tid, g, AggregatePos(registry, tid, j), AggregatePos(registry, tid, j + 1),
                   start, path, stack);
      }
    }

    /** The recursive search.  Both stacks end as they began. */
    method DoGather(tid: TypeId, ghost g: Graph)
      requires Valid(g) && tid in g
      modifies this
      ensures Valid(g) && currentPath == old(currentPath) && alreadyProcessed == old(alreadyProcessed)
      ensures output == old(output) + Found(g, tid, Range(alreadyProcessed), currentPath)
      decreases |g.Keys - Range(alreadyProcessed)|, 3
    {
      var found := HasAlreadyBeenProcessed(tid);
      if found {
        return;
      }
      ghost var start, path, stack := output, currentPath, alreadyProcessed;
      RecordOutput(tid);
      assert EdgesAt(registry, g, tid);
      Positions(registry, g, tid);
      SearchAttributes(tid, g, start, path, stack);
      SearchChildren(tid, g, start, path, stack);
      SearchAggregates(tid, g, start, path, stack);
    }

    /** The search from a root.  The listing ps has each simple path from the
        root exactly once, and what is appended is, in the same order, one entry
        per path.  Sorting out duplicates afterwards works on a copy of the
        list, so the recorded list stays as it is. */
    method Gather(root: TypeId) returns (ghost g: Graph, ghost ps: seq<seq<nat>>)
      requires currentPath == [] && alreadyProcessed == []
      modifies this
      ensures currentPath == [] && alreadyProcessed == [] && GraphOf(registry, g) && root in g
      ensures InLexOrder(ps) && Distinct(ps) && forall path :: path in ps <==> Simple(g, root, path)
      ensures old(output) <= output && EntriesFor(g, root, [], ps, output[|old(output)|..])
      ensures forall t, s :: (t, s) in output[|old(output)|..] <==> Reaches(registry, root, t, s)
    {
      g := GraphExists(registry, root);
      ps := OneEntryPerSimplePath(g, root);
      assert Range(alreadyProcessed) == {};
      DoGather(root, g);
      AllReached(registry, g, root, ps, output[|old(output)|..]);
    }
  }

  // ---------- what is found, path by path ----------

  /** The entries for a list of paths from tid, reached with the given labels. */
  ghost predicate EntriesFor(g: Graph, tid: TypeId, labels: seq<string>, paths: seq<seq<nat>>,
                             found: seq<(TypeId, string)>) {
    |found| == |paths| && forall k :: 0 <= k < |paths| ==>
      Along(g, tid, paths[k]) && found[k] == Entry(g, tid, labels, paths[k])
  }

  lemma LongerEntry(g: Graph, tid: TypeId, labels: seq<string>, n: nat, e: Edge, path: seq<nat>)
    requires tid in g && n < |g[tid]| && e == g[tid][n] && Along(g, e.target, path)
    ensures Along(g, tid, [n] + path)
    ensures Entry(g, tid, labels, [n] + path) == Entry(g, e.target, labels + [e.name], path)
  {
    assert ([n] + path)[1..] == path;
    assert Labels(g, tid, [n] + path) == [e.name] + Labels(g, e.target, path);
    Associate(labels, [e.name], Labels(g, e.target, path));
    assert Visited(g, tid, [n] + path) == [tid] + Visited(g, e.target, path);
  }

  lemma EntriesThrough(g: Graph, tid: TypeId, labels: seq<string>, n: nat, e: Edge, paths: seq<seq<nat>>,
                       found: seq<(TypeId, string)>)
    requires tid in g && n < |g[tid]| && e == g[tid][n]
    requires EntriesFor(g, e.target, labels + [e.name], paths, found)
    ensures EntriesFor(g, tid, labels, Prefix(n, paths), found)
  {
    forall k | 0 <= k < |paths|
      ensures Along(g, tid, Prefix(n, paths)[k]) && found[k] == Entry(g, tid, labels, Prefix(n, paths)[k]) {
      LongerEntry(g, tid, labels, n, e, paths[k]);
    }
  }

  lemma EntriesJoin(g: Graph, tid: TypeId, labels: seq<string>, ps: seq<seq<nat>>, qs: seq<seq<nat>>,
                    found: seq<(TypeId, string)>, more: seq<(TypeId, string)>)
    requires EntriesFor(g, tid, labels, ps, found) && EntriesFor(g, tid, labels, qs, more)
    ensures EntriesFor(g, tid, labels, ps + qs, found + more)
  {
    forall k | 0 <= k < |ps + qs|
      ensures Along(g, tid, (ps + qs)[k]) && (found + more)[k] == Entry(g, tid, labels, (ps + qs)[k]) {
      assert (ps + qs)[k] == if k < |ps| then ps[k] else qs[k - |ps|];
    }
  }

  lemma {:induction false} FoundEntries(g: Graph, tid: TypeId, seen: set<TypeId>,
                                        labels: seq<string>)
    requires ClosedGraph(g) && tid in g
    ensures EntriesFor(g, tid, labels, Paths(g, tid, seen), Found(g, tid, seen, labels))
    decreases |g.Keys - seen|, 1, 0
  {
    if tid !in seen {
      assert g.Keys - (seen + {tid}) == (g.Keys - seen) - {tid};
      FoundViaEntries(g, tid, seen, labels, |g[tid]|);
    }
  }

  lemma {:induction false} FoundViaEntries(g: Graph, tid: TypeId, seen: set<TypeId>,
                                           labels: seq<string>, n: nat)
    requires ClosedGraph(g) && tid in g && tid !in seen && n <= |g[tid]|
    ensures EntriesFor(g, tid, labels, [[]] + PathsVia(g, tid, seen, n), FoundVia(g, tid, seen, labels, n))
    decreases |g.Keys - seen|, 0, n
  {
    if n == 0 {
      assert labels + Labels(g, tid, []) == labels;
      assert Entry(g, tid, labels, []) == (tid, Render(labels));
      assert [[]] + PathsVia(g, tid, seen, 0) == [[]];
    } else {
      assert g.Keys - (seen + {tid}) == (g.Keys - seen) - {tid};
      var e := g[tid][n - 1];
      var more, found := Paths(g, e.target, seen + {tid}), Found(g, e.target, seen + {tid}, labels + [e.name]);
      FoundViaEntries(g, tid, seen, labels, n - 1);
      FoundEntries(g, e.target, seen + {tid}, labels + [e.name]);
      EntriesThrough(g, tid, labels, n - 1, e, more, found);
      EntriesJoin(g, tid, labels, [[]] + PathsVia(g, tid, seen, n - 1), Prefix(n - 1, more),
                  FoundVia(g, tid, seen, labels, n - 1), found);
      Associate([[]], PathsVia(g, tid, seen, n - 1), Prefix(n - 1, more));
    }
  }

  // ---------- the graph is finite ----------

  ghost function Pointee(c: Checker): set<TypeId> {
    match c
    case Pointer(t) => {t}
    case Container(t) => {t}
    case Other => {}
  }

  /** All types that an edge can lead to. */
  ghost function Targets(reg: Registry): set<TypeId> {
    (set tid, a, t | tid in reg.attributes && a in reg.attributes[tid] && t in Pointee(a.checker) :: t)
    + (set t | t in reg.registered)
    + (set pair | pair in reg.aggregates :: pair.0) + (set pair | pair in reg.aggregates :: pair.1)
  }

  ghost predicate Into(edges: seq<Edge>, all: set<TypeId>) {
    forall i :: 0 <= i < |edges| ==> edges[i].target in all
  }

  lemma {:induction false} AttributesInto(reg: Registry, s: seq<Attribute>, all: set<TypeId>)
    requires forall a, t :: a in s && t in Pointee(a.checker) ==> t in all
    ensures Into(AttributeEdges(reg, s), all)
  {
    if s != [] {
      AttributesInto(reg, s[..|s| - 1], all);
      assert s[|s| - 1] in s;
    }
  }

  lemma {:induction false} ChildrenInto(reg: Registry, tid: TypeId, s: seq<TypeId>, all: set<TypeId>)
    requires forall t :: t in s ==> t in all
    ensures Into(ChildEdges(reg, tid, s), all)
  {
    if s != [] {
      ChildrenInto(reg, tid, s[..|s| - 1], all);
    }
  }

  lemma {:induction false} AggregatesInto(tid: TypeId, s: seq<(TypeId, TypeId)>, all: set<TypeId>)
    requires forall pair :: pair in s ==> pair.0 in all && pair.1 in all
    ensures Into(AggregateEdges(tid, s), all)
  {
    if s != [] {
      AggregatesInto(tid, s[..|s| - 1], all);
      assert s[|s| - 1] in s;
    }
  }

  lemma EdgesInto(reg: Registry, tid: TypeId)
    ensures Into(Edges(reg, tid), Targets(reg))
  {
    AttributesInto(reg, AttributesOf(reg, tid), Targets(reg));
    ChildrenInto(reg, tid, reg.registered, Targets(reg));
    AggregatesInto(tid, reg.aggregates, Targets(reg));
  }

  /** Every type database and root have a finite graph. */
  lemma GraphExists(reg: Registry, root: TypeId) returns (g: Graph)
    ensures GraphOf(reg, g) && root in g
  {
    g := map tid | tid in Targets(reg) + {root} :: Edges(reg, tid);
    forall tid | tid in g ensures LeadsInto(g, g[tid]) {
      EdgesInto(reg, tid);
    }
  }

  /** What Gather records corresponds one to one to the simple paths from the
      root: the listing ps has each of them exactly once, and the k-th entry
      is the end type and the labels of the k-th path. */
  lemma OneEntryPerSimplePath(g: Graph, root: TypeId) returns (ps: seq<seq<nat>>)
    requires ClosedGraph(g) && root in g
    ensures InLexOrder(ps) && Distinct(ps) && forall path :: path in ps <==> Simple(g, root, path)
    ensures EntriesFor(g, root, [], ps, Found(g, root, {}, []))
  {
    ps := Paths(g, root, {});
    PathsOnce(g, root, {});
    PathsInOrder(g, root, {});
    FoundEntries(g, root, {}, []);
    forall path ensures path in ps <==> Simple(g, root, path) {
      PathsExact(g, root, {}, path);
    }
  }

  /** What is recorded, read off the type database. */
  lemma AllReached(reg: Registry, g: Graph, root: TypeId, ps: seq<seq<nat>>, found: seq<(TypeId, string)>)
    requires GraphOf(reg, g) && root in g && EntriesFor(g, root, [], ps, found)
    requires forall path :: path in ps <==> Simple(g, root, path)
    ensures forall t, s :: (t, s) in found <==> Reaches(reg, root, t, s)
  {
    forall t, s ensures (t, s) in found <==> Reaches(reg, root, t, s) {
      EntriesAreReached(reg, g, root, t, s);
      if (t, s) in found {
        var k: nat :| k < |found| && found[k] == (t, s);
        assert ps[k] in ps && Simple(g, root, ps[k]);
      }
      if path :| Simple(g, root, path) && Entry(g, root, [], path) == (t, s) {
        assert path in ps;
        var k: nat :| k < |ps| && ps[k] == path;
        assert found[k] == (t, s);
      }
    }
  }
}
