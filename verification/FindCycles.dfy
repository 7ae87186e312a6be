/** find_cycles of bindings/python/topsort.py: a stack-based search that yields
    every simple cycle of a finite graph exactly once up to rotation. */
module FindCycles {
  import opened Graphs
  import opened Rotations

  ghost function Edges<T>(g: map<T, seq<T>>): set<(T, T)> {
    set p, c | p in g && c in g[p] :: (p, c)
  }

  ghost function Nodes<T>(g: map<T, seq<T>>): set<T> {
    g.Keys + set p, c | p in g && c in g[p] :: c
  }

  /** A cycle as find_cycles reports it: distinct nodes, each the parent of the
      next, and the last one a parent of the first. */
  ghost predicate SimpleCycle<T>(edges: set<(T, T)>, c: seq<T>) {
    Walk(edges, c) && Distinct(c) && HasEdge(edges, c[|c| - 1], c[0])
  }

  ghost predicate PathFrom<T>(edges: set<(T, T)>, start: T, p: seq<T>) {
    Walk(edges, p) && Distinct(p) && p[0] == start
  }

  /** Some reported list is a rotation of c. */
  ghost predicate Reported<T>(cycles: seq<seq<T>>, c: seq<T>) {
    exists i :: 0 <= i < |cycles| && Rotated(cycles[i], c)
  }

  /** Every yield is a simple cycle and no two yields are rotations of each other. */
  ghost predicate GoodCycles<T>(edges: set<(T, T)>, cycles: seq<seq<T>>) {
    && (forall i :: 0 <= i < |cycles| ==> SimpleCycle(edges, cycles[i]))
    && (forall i, j :: 0 <= i < |cycles| && 0 <= j < |cycles| && i != j ==> !Rotated(cycles[i], cycles[j]))
  }

  /** Every cycle that the last node of p closes on p has been reported. */
  ghost predicate Closed<T>(edges: set<(T, T)>, cycles: seq<seq<T>>, p: seq<T>)
    requires p != []
  {
    forall i {:trigger p[i..]} :: 0 <= i < |p| && HasEdge(edges, p[|p| - 1], p[i]) ==> Reported(cycles, p[i..])
  }

  /** The search from start has nothing left to do. */
  ghost predicate Exhausted<T(!new)>(edges: set<(T, T)>, cycles: seq<seq<T>>, start: T) {
    forall p :: PathFrom(edges, start, p) ==> Closed(edges, cycles, p)
  }

  ghost predicate PrefixIn<T>(paths: seq<seq<T>>, p: seq<T>) {
    exists k :: 0 <= k < |paths| && paths[k] <= p
  }

  /** Every simple path from start is finished or extends a path on the stack. */
  ghost predicate Covered<T(!new)>(edges: set<(T, T)>, cycles: seq<seq<T>>, start: T, paths: seq<seq<T>>) {
    forall p :: PathFrom(edges, start, p) ==> Closed(edges, cycles, p) || PrefixIn(paths, p)
  }

  ghost predicate Stack<T>(edges: set<(T, T)>, start: T, paths: seq<seq<T>>) {
    forall k :: 0 <= k < |paths| ==> PathFrom(edges, start, paths[k])
  }

  // ---------- why an exhausted start reports every cycle it can reach ----------

  lemma RotateCycle<T(!new)>(edges: set<(T, T)>, c: seq<T>, j: nat) returns (d: seq<T>)
    requires SimpleCycle(edges, c) && j < |c|
    ensures SimpleCycle(edges, d) && d[0] == c[j] && Rotated(d, c)
    ensures forall y :: y in d ==> y in c
  {
    Reflexive(c);
    d := c;
    if j > 0 {
      d := c[j..|c|] + c[0..j];
      WalkSlice(edges, c, j, |c|);
      WalkSlice(edges, c, 0, j);
      WalkJoin(edges, c[j..|c|], c[0..j]);
      JoinDistinct(c[j..|c|], c[0..j]);
      assert StepAt(edges, c, j - 1);
      assert RotatedBy(c, d, j);
      Symmetric(c, d);
    }
  }

  lemma {:induction false} FirstIn<T>(p: seq<T>, c: seq<T>) returns (i: nat)
    requires p != [] && p[|p| - 1] in c
    ensures i < |p| && p[i] in c && forall k :: 0 <= k < i ==> p[k] !in c
  {
    if p[0] in c {
      i := 0;
    } else {
      i := FirstIn(p[1..], c);
      i := i + 1;
      assert p[i] == p[1..][i - 1];
    }
  }

  lemma ReportedRotation<T>(cycles: seq<seq<T>>, c: seq<T>, d: seq<T>)
    requires Reported(cycles, d) && Rotated(d, c)
    ensures Reported(cycles, c)
  {
    var i :| 0 <= i < |cycles| && Rotated(cycles[i], d);
    Transitive(cycles[i], d, c);
  }

  /** A simple path that reaches a cycle extends around the cycle to a simple
      path whose last node closes it. */
  lemma AroundTheCycle<T(!new)>(edges: set<(T, T)>, start: T, p: seq<T>, c: seq<T>) returns (q: seq<T>, i: nat)
    requires PathFrom(edges, start, p) && SimpleCycle(edges, c) && p[|p| - 1] in c
    ensures PathFrom(edges, start, q) && i < |q| && HasEdge(edges, q[|q| - 1], q[i])
    ensures Rotated(q[i..], c)
  {
    i := FirstIn(p, c);
    var j :| 0 <= j < |c| && c[j] == p[i];
    var d := RotateCycle(edges, c, j);
    q := d;
    if i > 0 {
      var head := p[0..i];
      WalkSlice(edges, p, 0, i);
      assert StepAt(edges, p, i - 1);
      WalkJoin(edges, head, d);
      assert forall k :: 0 <= k < |head| ==> head[k] !in d;
      JoinDistinct(head, d);
      q := head + d;
    }
    assert q[i..] == d;
    assert q[i] == d[0] && q[|q| - 1] == d[|d| - 1];
  }

  lemma ExhaustedReports<T(!new)>(edges: set<(T, T)>, cycles: seq<seq<T>>, start: T, p: seq<T>, c: seq<T>)
    requires Exhausted(edges, cycles, start) && PathFrom(edges, start, p)
    requires SimpleCycle(edges, c) && p[|p| - 1] in c
    ensures Reported(cycles, c)
  {
    var q, i := AroundTheCycle(edges, start, p, c);
    assert Closed(edges, cycles, q) && Reported(cycles, q[i..]);
    ReportedRotation(cycles, c, q[i..]);
  }

  // ---------- the stack loop ends ----------

  /** An upper bound for the number of pops that a path with m nodes still
      missing from it can cause, when no node has more than d children. */
  ghost function Pops(d: nat, m: nat): nat {
    if m == 0 then 1 else 1 + d * Pops(d, m - 1)
  }

  /** The cost of one child pushed by a path with m nodes missing. */
  ghost function PushCost(d: nat, m: nat): nat {
    if m == 0 then 0 else Pops(d, m - 1)
  }

  ghost predicate Short<T>(n: nat, paths: seq<seq<T>>) {
    forall k :: 0 <= k < |paths| ==> |paths[k]| <= n
  }

  ghost function Work<T>(d: nat, n: nat, paths: seq<seq<T>>): nat
    requires Short(n, paths)
  {
    if paths == [] then 0
    else Work(d, n, paths[..|paths| - 1]) + Pops(d, n - |paths[|paths| - 1]|)
  }

  lemma WorkPush<T>(d: nat, n: nat, paths: seq<seq<T>>, p: seq<T>)
    requires Short(n, paths) && |p| <= n
    ensures Short(n, paths + [p]) && Work(d, n, paths + [p]) == Work(d, n, paths) + Pops(d, n - |p|)
    ensures Pops(d, n - |p|) > 0
  {
    assert (paths + [p])[..|paths|] == paths;
  }

  lemma {:induction false} MulMonotone(a: nat, b: nat, c: nat)
    requires a <= b
    ensures a * c <= b * c
  {
    if a < b {
      MulMonotone(a, b - 1, c);
      assert (b - 1) * c + c == b * c;
    }
  }

  lemma MoreKids(kids: nat, d: nat, m: nat)
    requires kids <= d
    ensures kids * PushCost(d, m) < Pops(d, m)
  {
    MulMonotone(kids, d, PushCost(d, m));
  }

  lemma PathWithin<T>(g: map<T, seq<T>>, p: seq<T>, start: T)
    requires PathFrom(Edges(g), start, p) && start in Nodes(g)
    ensures |p| <= |Nodes(g)|
  {
    forall y | y in p ensures y in Nodes(g) {
      var i :| 0 <= i < |p| && p[i] == y;
      if i > 0 {
        assert StepAt(Edges(g), p, i - 1);
      }
    }
    DistinctSize(p);
    SubsetSize(Range(p), Nodes(g));
  }

  // ---------- the search ----------

  /** The first index of x in s. */
  function IndexOf<T(==)>(s: seq<T>, x: T): (i: nat)
    requires x in s
    ensures i < |s| && s[i] == x && x !in s[..i]
  {
    if s[0] == x then 0 else 1 + IndexOf(s[1..], x)
  }

  /** Report a cycle unless it is a rotation of one reported before. */
  method Report<T(==)>(ghost edges: set<(T, T)>, cycles: seq<seq<T>>, cycle: seq<T>) returns (r: seq<seq<T>>)
    requires GoodCycles(edges, cycles) && SimpleCycle(edges, cycle)
    ensures GoodCycles(edges, r) && cycles <= r && Reported(r, cycle)
  {
    var isDup := false;
    for i := 0 to |cycles|
      invariant isDup ==> Reported(cycles, cycle)
      invariant !isDup ==> forall k :: 0 <= k < i ==> !Rotated(cycles[k], cycle)
    {
      var answer := IsRotated(cycles[i], cycle);
      if answer.rotated {
        isDup := true;
        break;
      }
    }
    r := cycles;
    if !isDup {
      r := cycles + [cycle];
      forall k | 0 <= k < |cycles| ensures !Rotated(cycle, cycles[k]) {
        if Rotated(cycle, cycles[k]) {
          Symmetric(cycle, cycles[k]);
        }
      }
      Reflexive(cycle);
      assert r[|cycles|] == cycle;
    }
  }

  /** Reporting more cycles undoes nothing. */
  lemma ReportedMore<T(!new)>(edges: set<(T, T)>, cycles: seq<seq<T>>, more: seq<seq<T>>)
    requires cycles <= more
    ensures forall c :: Reported(cycles, c) ==> Reported(more, c)
    ensures forall p :: p != [] && Closed(edges, cycles, p) ==> Closed(edges, more, p)
    ensures forall s :: Exhausted(edges, cycles, s) ==> Exhausted(edges, more, s)
  {
    forall c | Reported(cycles, c) ensures Reported(more, c) {
      var i :| 0 <= i < |cycles| && Rotated(cycles[i], c);
      assert more[i] == cycles[i];
    }
  }

  /** While path is being expanded: every simple path from start is finished,
      extends a path on the stack, or goes on from path through one of the
      children in todo. */
  ghost predicate Expanding<T(!new)>(edges: set<(T, T)>, cycles: seq<seq<T>>, start: T, paths: seq<seq<T>>,
                                     path: seq<T>, todo: seq<T>)
    requires path != []
  {
    && (forall p :: PathFrom(edges, start, p) && p != path ==>
          Closed(edges, cycles, p) || PrefixIn(paths, p) || (path < p && p[|path|] in todo))
    && (forall i {:trigger path[i..]} :: 0 <= i < |path| && HasEdge(edges, path[|path| - 1], path[i]) ==>
          Reported(cycles, path[i..]) || path[i] in todo)
  }

  /** v has been reached by a simple path from one of the starts. */
  ghost predicate ReachedFrom<T(!new)>(edges: set<(T, T)>, starts: set<T>, v: T) {
    exists s, p :: s in starts && PathFrom(edges, s, p) && p[|p| - 1] == v
  }

  ghost predicate VisitedOk<T(!new)>(edges: set<(T, T)>, starts: set<T>, visited: set<T>) {
    forall v :: v in visited ==> ReachedFrom(edges, starts, v)
  }

  lemma PopPath<T(!new)>(g: map<T, seq<T>>, cycles: seq<seq<T>>, start: T, paths: seq<seq<T>>, path: seq<T>)
    requires Stack(Edges(g), start, paths + [path]) && Covered(Edges(g), cycles, start, paths + [path])
    ensures Stack(Edges(g), start, paths) && PathFrom(Edges(g), start, path)
    ensures var last := path[|path| - 1];
      Expanding(Edges(g), cycles, start, paths, path, if last in g then g[last] else [])
  {
    assert (paths + [path])[|paths|] == path;
    forall k | 0 <= k < |paths| ensures PathFrom(Edges(g), start, paths[k]) {
      assert (paths + [path])[k] == paths[k];
    }
    var last := path[|path| - 1];
    var todo := if last in g then g[last] else [];
    assert forall c :: HasEdge(Edges(g), last, c) ==> c in todo;
    forall p | PathFrom(Edges(g), start, p) && p != path && !Closed(Edges(g), cycles, p)
      ensures PrefixIn(paths, p) || (path < p && p[|path|] in todo) {
      var k :| 0 <= k < |paths| + 1 && (paths + [path])[k] <= p;
      if k < |paths| {
        assert paths[k] <= p;
      } else {
        assert StepAt(Edges(g), p, |path| - 1);
      }
    }
  }

  lemma ExpandEnd<T(!new)>(edges: set<(T, T)>, cycles: seq<seq<T>>, start: T, paths: seq<seq<T>>, path: seq<T>)
    requires path != [] && Expanding(edges, cycles, start, paths, path, [])
    ensures Covered(edges, cycles, start, paths)
  {
  }

  /** A child already on the path closes a simple cycle. */
  lemma ClosesCycle<T>(edges: set<(T, T)>, start: T, path: seq<T>, child: T, i: nat)
    requires PathFrom(edges, start, path) && i < |path| && path[i] == child
    requires HasEdge(edges, path[|path| - 1], child)
    ensures SimpleCycle(edges, path[i..])
  {
    WalkSlice(edges, path, i, |path|);
    assert path[i..] == path[i..|path|];
  }

  lemma AfterReport<T(!new)>(edges: set<(T, T)>, cycles: seq<seq<T>>, more: seq<seq<T>>, start: T,
                             paths: seq<seq<T>>, path: seq<T>, todo: seq<T>, i: nat)
    requires PathFrom(edges, start, path) && i < |path| && cycles <= more
    requires Expanding(edges, cycles, start, paths, path, [path[i]] + todo)
    requires Reported(more, path[i..])
    ensures Expanding(edges, more, start, paths, path, todo)
  {
    ReportedMore(edges, cycles, more);
    forall p | PathFrom(edges, start, p) && path < p ensures p[|path|] != path[i] {
      assert p[i] == path[i];
    }
  }

  lemma AfterPush<T(!new)>(edges: set<(T, T)>, cycles: seq<seq<T>>, start: T,
                           paths: seq<seq<T>>, path: seq<T>, todo: seq<T>, child: T)
    requires PathFrom(edges, start, path) && Stack(edges, start, paths)
    requires HasEdge(edges, path[|path| - 1], child) && child !in path
    requires Expanding(edges, cycles, start, paths, path, [child] + todo)
    ensures PathFrom(edges, start, path + [child]) && Stack(edges, start, paths + [path + [child]])
    ensures Expanding(edges, cycles, start, paths + [path + [child]], path, todo)
  {
    var pushed := paths + [path + [child]];
    WalkJoin(edges, path, [child]);
    forall p | PathFrom(edges, start, p) && p != path
      ensures Closed(edges, cycles, p) || PrefixIn(pushed, p) || (path < p && p[|path|] in todo) {
      if PrefixIn(paths, p) {
        var k :| 0 <= k < |paths| && paths[k] <= p;
        assert pushed[k] <= p;
      } else if path < p && p[|path|] == child {
        assert pushed[|paths|] <= p;
      }
    }
  }

  /** What holds of the yields, the visited nodes and the stack throughout the
      search from start. */
  ghost predicate Searching<T(!new)>(edges: set<(T, T)>, starts: set<T>, start: T, n: nat,
                                     cycles: seq<seq<T>>, visited: set<T>, paths: seq<seq<T>>) {
    && GoodCycles(edges, cycles) && VisitedOk(edges, starts, visited)
    && Stack(edges, start, paths) && Short(n, paths)
    && start in starts && forall p :: PathFrom(edges, start, p) ==> |p| <= n
  }

  /** Body of the inner for loop: a child on the path closes a cycle, any other
      child extends the path. */
  method ExpandOne<T(==,!new)>(ghost edges: set<(T, T)>, ghost starts: set<T>, ghost start: T, path: seq<T>,
                               child: T, ghost todo: seq<T>,
                               cycles0: seq<seq<T>>, visited0: set<T>, paths0: seq<seq<T>>, ghost d: nat, ghost n: nat)
    returns (cycles: seq<seq<T>>, visited: set<T>, paths: seq<seq<T>>)
    requires Searching(edges, starts, start, n, cycles0, visited0, paths0) && PathFrom(edges, start, path)
    requires HasEdge(edges, path[|path| - 1], child)
    requires Expanding(edges, cycles0, start, paths0, path, [child] + todo)
    ensures Searching(edges, starts, start, n, cycles, visited, paths)
    ensures cycles0 <= cycles && visited0 <= visited
    ensures Expanding(edges, cycles, start, paths, path, todo)
    ensures Work(d, n, paths) <= Work(d, n, paths0) + PushCost(d, n - |path|)
  {
    cycles, visited, paths := cycles0, visited0, paths0;
    if child in path {
      var i := IndexOf(path, child);
      ClosesCycle(edges, start, path, child, i);
      cycles := Report(edges, cycles, path[i..]);
      AfterReport(edges, cycles0, cycles, start, paths, path, todo, i);
    } else {
      AfterPush(edges, cycles, start, paths, path, todo, child);
      WorkPush(d, n, paths, path + [child]);
      paths := paths + [path + [child]];
      visited := visited + {child};
    }
  }

  /** The inner for loop: report the cycles that the popped path closes and push
      its extensions. */
  method Expand<T(==,!new)>(ghost edges: set<(T, T)>, ghost starts: set<T>, ghost start: T, path: seq<T>, kids: seq<T>,
                            cycles0: seq<seq<T>>, visited0: set<T>, paths0: seq<seq<T>>, ghost d: nat, ghost n: nat)
    returns (cycles: seq<seq<T>>, visited: set<T>, paths: seq<seq<T>>)
    requires Searching(edges, starts, start, n, cycles0, visited0, paths0) && PathFrom(edges, start, path)
    requires forall c :: c in kids ==> HasEdge(edges, path[|path| - 1], c)
    requires Expanding(edges, cycles0, start, paths0, path, kids) && |kids| <= d
    ensures Searching(edges, starts, start, n, cycles, visited, paths)
    ensures cycles0 <= cycles && visited0 <= visited
    ensures Covered(edges, cycles, start, paths)
    ensures Work(d, n, paths) < Work(d, n, paths0) + Pops(d, n - |path|)
  {
    cycles, visited, paths := cycles0, visited0, paths0;
    ghost var cost := PushCost(d, n - |path|);
    assert kids[0..] == kids;
    for j := 0 to |kids|
      invariant Searching(edges, starts, start, n, cycles, visited, paths)
      invariant cycles0 <= cycles && visited0 <= visited
      invariant Expanding(edges, cycles, start, paths, path, kids[j..])
      invariant Work(d, n, paths) <= Work(d, n, paths0) + j * cost
    {
      var child := kids[j];
      assert child in kids && kids[j..] == [child] + kids[j + 1..];
      assert (j + 1) * cost == j * cost + cost;
      cycles, visited, paths :=
        ExpandOne(edges, starts, start, path, child, kids[j + 1..], cycles, visited, paths, d, n);
    }
    ExpandEnd(edges, cycles, start, paths, path);
    MoreKids(|kids|, d, n - |path|);
  }

  /** Body of the while loop: pop a path and expand it. */
  method PopAndExpand<T(==,!new)>(g: map<T, seq<T>>, ghost starts: set<T>, ghost start: T,
                                  cycles0: seq<seq<T>>, visited0: set<T>, paths0: seq<seq<T>>,
                                  ghost d: nat, ghost n: nat)
    returns (cycles: seq<seq<T>>, visited: set<T>, paths: seq<seq<T>>)
    requires Degree(g, d) && paths0 != []
    requires Searching(Edges(g), starts, start, n, cycles0, visited0, paths0)
    requires Covered(Edges(g), cycles0, start, paths0)
    ensures Searching(Edges(g), starts, start, n, cycles, visited, paths)
    ensures cycles0 <= cycles && visited0 <= visited
    ensures Covered(Edges(g), cycles, start, paths)
    ensures Work(d, n, paths) < Work(d, n, paths0)
  {
    var path := paths0[|paths0| - 1];
    cycles, visited, paths := cycles0, visited0, paths0[..|paths0| - 1];
    assert paths0 == paths + [path];
    PopPath(g, cycles0, start, paths, path);
    assert Short(n, paths);
    WorkPush(d, n, paths, path);
    var parent := path[|path| - 1];
    if parent !in g {
      ExpandEnd(Edges(g), cycles, start, paths, path);
    } else {
      cycles, visited, paths := Expand(Edges(g), starts, start, path, g[parent], cycles, visited, paths, d, n);
    }
  }

  /** The while loop over the stack of paths from one start node. */
  method Search<T(==,!new)>(g: map<T, seq<T>>, ghost starts: set<T>, start: T,
                            cycles0: seq<seq<T>>, visited0: set<T>, ghost d: nat)
    returns (cycles: seq<seq<T>>, visited: set<T>)
    requires start in g && Degree(g, d)
    requires GoodCycles(Edges(g), cycles0) && VisitedOk(Edges(g), starts, visited0)
    ensures GoodCycles(Edges(g), cycles) && cycles0 <= cycles
    ensures VisitedOk(Edges(g), starts + {start}, visited) && visited0 <= visited
    ensures Exhausted(Edges(g), cycles, start)
  {
    ghost var n := |Nodes(g)|;
    cycles, visited := cycles0, visited0;
    var paths := [[start]];
    forall p | PathFrom(Edges(g), start, p) ensures |p| <= n && PrefixIn(paths, p) {
      PathWithin(g, p, start);
      assert paths[0] <= p;
    }
    assert PathFrom(Edges(g), start, [start]);
    while paths != []
      invariant Searching(Edges(g), starts + {start}, start, n, cycles, visited, paths)
      invariant cycles0 <= cycles && visited0 <= visited
      invariant Covered(Edges(g), cycles, start, paths)
      decreases Work(d, n, paths)
    {
      cycles, visited, paths := PopAndExpand(g, starts + {start}, start, cycles, visited, paths, d, n);
    }
  }

  /** No node has more than d children. */
  ghost predicate Degree<T(!new)>(g: map<T, seq<T>>, d: nat) {
    forall p :: p in g ==> |g[p]| <= d
  }

  lemma {:induction false} ChildBound<T(!new)>(g: map<T, seq<T>>) returns (d: nat)
    ensures Degree(g, d)
  {
    if g == map[] {
      d := 0;
    } else {
      var p :| p in g;
      var e := ChildBound(g - {p});
      d := if e < |g[p]| then |g[p]| else e;
      forall q | q in g ensures |g[q]| <= d {
        if q != p {
          assert q in g - {p};
        }
      }
    }
  }

  /** find_cycles: it terminates; every yield is a simple cycle; no two yields
      are rotations of each other; and every simple cycle is a rotation of a
      yield, although start nodes already visited are skipped. */
  method FindCycles<T(==,!new)>(g: map<T, seq<T>>) returns (cycles: seq<seq<T>>)
    ensures GoodCycles(Edges(g), cycles)
    ensures forall c :: SimpleCycle(Edges(g), c) ==> Reported(cycles, c)
  {
    ghost var edges := Edges(g);
    ghost var d := ChildBound(g);
    cycles := [];
    var visited: set<T> := {};
    ghost var starts: set<T> := {};
    var keys := g.Keys;
    while keys != {}
      invariant keys <= g.Keys
      invariant GoodCycles(edges, cycles) && VisitedOk(edges, starts, visited)
      invariant forall s :: s in starts ==> Exhausted(edges, cycles, s)
      invariant forall k :: k in g && k !in keys ==> k in starts || k in visited
    {
      var parent :| parent in keys;
      keys := keys - {parent};
      if parent in visited {
        continue;
      }
      ghost var before := cycles;
      cycles, visited := Search(g, starts, parent, cycles, visited, d);
      ReportedMore(edges, before, cycles);
      starts := starts + {parent};
    }
    forall c | SimpleCycle(edges, c) ensures Reported(cycles, c) {
      AllReported(g, starts, visited, cycles, c);
    }
  }

  /** A cycle whose first node was skipped because it had been visited is
      reachable from an exhausted start, so it has been reported. */
  lemma AllReported<T(!new)>(g: map<T, seq<T>>, starts: set<T>, visited: set<T>, cycles: seq<seq<T>>, c: seq<T>)
    requires VisitedOk(Edges(g), starts, visited)
    requires forall s :: s in starts ==> Exhausted(Edges(g), cycles, s)
    requires forall k :: k in g ==> k in starts || k in visited
    requires SimpleCycle(Edges(g), c)
    ensures Reported(cycles, c)
  {
    var edges, v := Edges(g), c[|c| - 1];
    assert HasEdge(edges, v, c[0]) && v in g;
    var s, p := v, [v];
    if v !in starts {
      assert ReachedFrom(edges, starts, v);
      s, p :| s in starts && PathFrom(edges, s, p) && p[|p| - 1] == v;
    }
    ExhaustedReports(edges, cycles, s, p, c);
  }

  // ---------- find_cycles and topsort agree on what is cyclic ----------

  /** A closed walk through x that is as short as possible is a simple cycle. */
  lemma {:induction false} Shortcut<T(!new)>(edges: set<(T, T)>, x: T, w: seq<T>) returns (c: seq<T>)
    requires ClosedWalk(edges, x, w)
    ensures SimpleCycle(edges, c) && c[0] == x
    decreases |w|
  {
    var n := |w| - 1;
    if Distinct(w[0..n]) {
      c := w[0..n];
      WalkSlice(edges, w, 0, n);
      assert StepAt(edges, w, n - 1);
    } else {
      var i, j :| 0 <= i < j < n && w[0..n][i] == w[0..n][j];
      WalkSlice(edges, w, j, |w|);
      var v := w[j..|w|];
      if i > 0 {
        WalkSlice(edges, w, 0, i);
        assert StepAt(edges, w, i - 1);
        WalkJoin(edges, w[0..i], v);
        v := w[0..i] + v;
      }
      c := Shortcut(edges, x, v);
    }
  }

  lemma CycleNode<T(!new)>(edges: set<(T, T)>, c: seq<T>, x: T)
    requires SimpleCycle(edges, c) && x in c
    ensures OnCycle(edges, x)
  {
    var j :| 0 <= j < |c| && c[j] == x;
    var d := RotateCycle(edges, c, j);
    WalkJoin(edges, d, [x]);
    assert ClosedWalk(edges, x, d + [x]);
  }

  /** The nodes of the yielded lists are exactly the nodes that lie on a cycle. */
  lemma YieldedNodes<T(!new)>(edges: set<(T, T)>, cycles: seq<seq<T>>, x: T)
    requires GoodCycles(edges, cycles) && forall c :: SimpleCycle(edges, c) ==> Reported(cycles, c)
    ensures OnCycle(edges, x) <==> exists i :: 0 <= i < |cycles| && x in cycles[i]
  {
    if OnCycle(edges, x) {
      var w :| ClosedWalk(edges, x, w);
      var c := Shortcut(edges, x, w);
      var i :| 0 <= i < |cycles| && Rotated(cycles[i], c);
      var k: nat :| RotatedBy(cycles[i], c, k);
      assert x == cycles[i][k];
    }
    if i :| 0 <= i < |cycles| && x in cycles[i] {
      CycleNode(edges, cycles[i], x);
    }
  }

  /** Nothing is yielded exactly when the graph is acyclic, which is exactly
      when topsort of the same edges succeeds. */
  lemma SilentIffAcyclic<T(!new)>(edges: set<(T, T)>, cycles: seq<seq<T>>)
    requires GoodCycles(edges, cycles) && forall c :: SimpleCycle(edges, c) ==> Reported(cycles, c)
    ensures cycles == [] <==> Acyclic(edges)
  {
    if x :| OnCycle(edges, x) {
      YieldedNodes(edges, cycles, x);
    }
    if cycles != [] {
      YieldedNodes(edges, cycles, cycles[0][0]);
    }
  }
}
