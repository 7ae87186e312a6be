/** Directed graphs as finite sets of edges (parent, child): walks, cycles, and
    chains of ancestors.  The sorting and cycle-finding modules share these
    definitions, so "acyclic" and "reachable from a cycle" mean one thing. */
module Graphs {

  ghost predicate Distinct<T>(s: seq<T>) {
    forall i, j :: 0 <= i < j < |s| ==> s[i] != s[j]
  }

  lemma JoinDistinct<T>(a: seq<T>, b: seq<T>)
    requires Distinct(a) && Distinct(b) && forall k :: 0 <= k < |a| ==> a[k] !in b
    ensures Distinct(a + b)
  {
  }

  ghost function Range<T>(s: seq<T>): set<T> {
    set x | x in s
  }

  ghost predicate HasEdge<T>(edges: set<(T, T)>, p: T, c: T) {
    (p, c) in edges
  }

  ghost predicate StepAt<T>(edges: set<(T, T)>, w: seq<T>, i: nat)
    requires i + 1 < |w|
  {
    HasEdge(edges, w[i], w[i + 1])
  }

  /** A walk follows an edge from each node to the next one. */
  ghost predicate Walk<T>(edges: set<(T, T)>, w: seq<T>) {
    |w| > 0 && forall i: nat {:trigger StepAt(edges, w, i)} :: i + 1 < |w| ==> StepAt(edges, w, i)
  }

  ghost predicate ClosedWalk<T>(edges: set<(T, T)>, x: T, w: seq<T>) {
    Walk(edges, w) && |w| >= 2 && w[0] == x && w[|w| - 1] == x
  }

  ghost predicate OnCycle<T(!new)>(edges: set<(T, T)>, x: T) {
    exists w :: ClosedWalk(edges, x, w)
  }

  ghost predicate Acyclic<T(!new)>(edges: set<(T, T)>) {
    forall x :: !OnCycle(edges, x)
  }

  ghost predicate WalkFromCycle<T(!new)>(edges: set<(T, T)>, x: T, w: seq<T>) {
    Walk(edges, w) && OnCycle(edges, w[0]) && w[|w| - 1] == x
  }

  /** x is reachable from a node that lies on a cycle (or lies on one itself). */
  ghost predicate FromCycle<T(!new)>(edges: set<(T, T)>, x: T) {
    exists w :: WalkFromCycle(edges, x, w)
  }

  /** A walk of k edges ends in x: a chain of k ancestors. */
  ghost predicate ChainOf<T>(edges: set<(T, T)>, x: T, k: nat, w: seq<T>) {
    |w| == k + 1 && Walk(edges, w) && w[k] == x
  }

  ghost predicate HasChain<T(!new)>(edges: set<(T, T)>, x: T, k: nat) {
    exists w :: ChainOf(edges, x, k, w)
  }

  // ---------- parts of walks ----------

  lemma WalkSlice<T>(edges: set<(T, T)>, w: seq<T>, i: nat, j: nat)
    requires Walk(edges, w) && i < j <= |w|
    ensures Walk(edges, w[i..j])
  {
    forall k: nat | k + 1 < j - i ensures StepAt(edges, w[i..j], k) {
      assert StepAt(edges, w, i + k);
    }
  }

  lemma WalkJoin<T>(edges: set<(T, T)>, v: seq<T>, w: seq<T>)
    requires Walk(edges, v) && Walk(edges, w) && HasEdge(edges, v[|v| - 1], w[0])
    ensures Walk(edges, v + w)
  {
    var u := v + w;
    forall k: nat | k + 1 < |u| ensures StepAt(edges, u, k) {
      if k + 1 < |v| {
        assert StepAt(edges, v, k);
      } else if k >= |v| {
        assert StepAt(edges, w, k - |v|);
      }
    }
  }

  // ---------- chains ----------

  lemma ChainZero<T(!new)>(edges: set<(T, T)>, x: T)
    ensures HasChain(edges, x, 0)
  {
    assert ChainOf(edges, x, 0, [x]);
  }

  /** A chain of k + 1 ancestors is a parent with a chain of k ancestors. */
  lemma ChainStep<T(!new)>(edges: set<(T, T)>, x: T, k: nat)
    ensures HasChain(edges, x, k + 1) <==> exists p :: HasEdge(edges, p, x) && HasChain(edges, p, k)
  {
    if HasChain(edges, x, k + 1) {
      var w :| ChainOf(edges, x, k + 1, w);
      assert StepAt(edges, w, k);
      WalkSlice(edges, w, 0, k + 1);
      assert ChainOf(edges, w[k], k, w[0..k + 1]);
    }
    if p :| HasEdge(edges, p, x) && HasChain(edges, p, k) {
      var w :| ChainOf(edges, p, k, w);
      WalkJoin(edges, w, [x]);
      assert ChainOf(edges, x, k + 1, w + [x]);
    }
  }

  lemma {:induction false} ChainShorter<T(!new)>(edges: set<(T, T)>, x: T, k: nat, m: nat)
    requires m <= k && HasChain(edges, x, k)
    ensures HasChain(edges, x, m)
  {
    var w :| ChainOf(edges, x, k, w);
    WalkSlice(edges, w, k - m, k + 1);
    assert ChainOf(edges, x, m, w[k - m..k + 1]);
  }

  // ---------- pigeonhole ----------

  lemma {:induction false} DistinctSize<T>(s: seq<T>)
    requires Distinct(s)
    ensures |Range(s)| == |s|
  {
    if s != [] {
      var n := |s| - 1;
      DistinctSize(s[..n]);
      assert Range(s) == Range(s[..n]) + {s[n]};
    }
  }

  lemma Pigeonhole<T>(s: seq<T>, all: set<T>)
    requires forall x :: x in s ==> x in all
    requires |s| > |all|
    ensures exists i, j :: 0 <= i < j < |s| && s[i] == s[j]
  {
    if Distinct(s) {
      DistinctSize(s);
      SubsetSize(Range(s), all);
    }
  }

  lemma {:induction false} SubsetSize<T>(a: set<T>, b: set<T>)
    requires a <= b
    ensures |a| <= |b|
  {
    if a != {} {
      var x :| x in a;
      SubsetSize(a - {x}, b - {x});
    }
  }

  // ---------- what a cycle forces, and what forces a cycle ----------

  /** A node reachable from a cycle has a parent that is reachable from a cycle. */
  lemma FromCycleParent<T(!new)>(edges: set<(T, T)>, x: T) returns (p: T)
    requires FromCycle(edges, x)
    ensures HasEdge(edges, p, x) && FromCycle(edges, p)
  {
    var w :| WalkFromCycle(edges, x, w);
    if |w| == 1 {
      w :| ClosedWalk(edges, x, w);
    }
    var n := |w| - 1;
    p := w[n - 1];
    assert StepAt(edges, w, n - 1);
    WalkSlice(edges, w, 0, n);
    assert WalkFromCycle(edges, p, w[0..n]);
  }

  lemma {:induction false} FromCycleChains<T(!new)>(edges: set<(T, T)>, x: T, k: nat)
    requires FromCycle(edges, x)
    ensures HasChain(edges, x, k)
  {
    if k == 0 {
      ChainZero(edges, x);
    } else {
      var p := FromCycleParent(edges, x);
      FromCycleChains(edges, p, k - 1);
      ChainStep(edges, x, k - 1);
    }
  }

  /** The end of a walk that meets a node twice is reachable from a cycle. */
  lemma RepeatFromCycle<T(!new)>(edges: set<(T, T)>, w: seq<T>, i: nat, j: nat)
    requires Walk(edges, w) && i < j < |w| && w[i] == w[j]
    ensures FromCycle(edges, w[|w| - 1])
  {
    WalkSlice(edges, w, i, j + 1);
    assert ClosedWalk(edges, w[i], w[i..j + 1]);
    WalkSlice(edges, w, i, |w|);
    assert WalkFromCycle(edges, w[|w| - 1], w[i..|w|]);
  }

  ghost predicate HasParentIn<T(!new)>(edges: set<(T, T)>, all: set<T>, c: T) {
    exists p :: p in all && HasEdge(edges, p, c)
  }

  ghost predicate EveryoneHasParent<T(!new)>(edges: set<(T, T)>, all: set<T>) {
    forall c {:trigger HasParentIn(edges, all, c)} :: c in all ==> HasParentIn(edges, all, c)
  }

  /** Walking backwards inside a set in which every node has a parent. */
  lemma {:induction false} BackwardWalk<T(!new)>(edges: set<(T, T)>, all: set<T>, x: T, k: nat) returns (w: seq<T>)
    requires x in all
    requires EveryoneHasParent(edges, all)
    ensures ChainOf(edges, x, k, w) && forall y :: y in w ==> y in all
  {
    if k == 0 {
      w := [x];
    } else {
      assert HasParentIn(edges, all, x);
      var p :| p in all && HasEdge(edges, p, x);
      var v := BackwardWalk(edges, all, p, k - 1);
      WalkJoin(edges, v, [x]);
      w := v + [x];
    }
  }

  /** If every node of a finite set has a parent in the set, every node of the
      set is reachable from a cycle. */
  lemma LeftoverFromCycle<T(!new)>(edges: set<(T, T)>, all: set<T>, x: T)
    requires x in all
    requires EveryoneHasParent(edges, all)
    ensures FromCycle(edges, x)
  {
    var w := BackwardWalk(edges, all, x, |all|);
    Pigeonhole(w, all);
    var i: nat, j: nat :| i < j < |w| && w[i] == w[j];
    RepeatFromCycle(edges, w, i, j);
  }

  /** Every parent of an entry occurs earlier in the list. */
  ghost predicate ParentsBefore<T(!new)>(edges: set<(T, T)>, a: seq<T>) {
    forall i, p :: 0 <= i < |a| && HasEdge(edges, p, a[i]) ==> p in a[..i]
  }

  /** A list that has every parent before its child meets no cycle. */
  lemma {:induction false} ListedNotFromCycle<T(!new)>(edges: set<(T, T)>, a: seq<T>, i: nat)
    requires ParentsBefore(edges, a) && i < |a|
    ensures !FromCycle(edges, a[i])
    decreases i
  {
    if FromCycle(edges, a[i]) {
      var p := FromCycleParent(edges, a[i]);
      var j :| 0 <= j < i && a[..i][j] == p;
      ListedNotFromCycle(edges, a, j);
    }
  }

  /** The nodes reachable from a cycle. */
  ghost function CyclicPart<T(!new)>(edges: set<(T, T)>, nodes: set<T>): set<T> {
    set x | x in nodes && FromCycle(edges, x)
  }

  ghost predicate EdgesWithin<T(!new)>(edges: set<(T, T)>, nodes: set<T>) {
    forall p, c :: HasEdge(edges, p, c) ==> p in nodes && c in nodes
  }

  /** A graph is acyclic exactly when none of its nodes is reachable from a cycle. */
  lemma AcyclicIff<T(!new)>(edges: set<(T, T)>, nodes: set<T>)
    requires EdgesWithin(edges, nodes)
    ensures Acyclic(edges) <==> CyclicPart(edges, nodes) == {}
  {
    if x :| OnCycle(edges, x) {
      var w :| ClosedWalk(edges, x, w);
      assert StepAt(edges, w, 0);
      assert WalkFromCycle(edges, x, [x]);
      assert x in CyclicPart(edges, nodes);
    }
    if x :| x in CyclicPart(edges, nodes) {
      var w :| WalkFromCycle(edges, x, w);
      assert OnCycle(edges, w[0]);
    }
  }

  /** If a duplicate-free work list with every parent before its child leaves
      only nodes that have a parent left over, the leftover nodes are exactly
      the cyclic part. */
  lemma LeftoverIsCyclic<T(!new)>(edges: set<(T, T)>, nodes: set<T>, done: seq<T>)
    requires ParentsBefore(edges, done)
    requires EveryoneHasParent(edges, nodes - Range(done))
    ensures nodes - Range(done) == CyclicPart(edges, nodes)
  {
    forall x | x in nodes ensures x !in Range(done) <==> FromCycle(edges, x) {
      if x in Range(done) {
        var i :| 0 <= i < |done| && done[i] == x;
        ListedNotFromCycle(edges, done, i);
      } else {
        LeftoverFromCycle(edges, nodes - Range(done), x);
      }
    }
  }
}
