/** topsort and topsort_levels of bindings/python/topsort.py: Kahn's algorithm
    with the dictionaries num_parents and children changed in place.  A pair is
    (parent, child); duplicates and self-pairs are allowed. */
module Topsort {
  import opened Graphs

  ghost function Edges<T>(pairs: seq<(T, T)>): set<(T, T)> {
    set e | e in pairs
  }

  ghost function Elements<T>(pairs: seq<(T, T)>): set<T> {
    (set e | e in pairs :: e.0) + (set e | e in pairs :: e.1)
  }

  /** The children of p, one for each pair with parent p, in order of appearance. */
  ghost function ChildList<T>(pairs: seq<(T, T)>, p: T): seq<T> {
    if pairs == [] then [] else
    var n := |pairs| - 1;
    ChildList(pairs[..n], p) + if pairs[n].0 == p then [pairs[n].1] else []
  }

  /** The number of pairs that give x a parent outside done. */
  ghost function Pending<T>(pairs: seq<(T, T)>, done: set<T>, x: T): nat {
    if pairs == [] then 0 else
    var n := |pairs| - 1;
    Pending(pairs[..n], done, x) + if pairs[n].0 !in done && pairs[n].1 == x then 1 else 0
  }

  // ---------- facts about the counters ----------

  /** Finishing p lowers the count of x by the number of times x is a child of p. */
  lemma {:induction false} PendingSplit<T>(pairs: seq<(T, T)>, done: set<T>, p: T, x: T)
    requires p !in done
    ensures Pending(pairs, done, x) == Pending(pairs, done + {p}, x) + multiset(ChildList(pairs, p))[x]
  {
    if pairs != [] {
      PendingSplit(pairs[..|pairs| - 1], done, p, x);
    }
  }

  lemma {:induction false} PendingZero<T(!new)>(pairs: seq<(T, T)>, done: set<T>, x: T)
    ensures Pending(pairs, done, x) == 0 <==> forall p :: HasEdge(Edges(pairs), p, x) ==> p in done
  {
    if pairs != [] {
      var n := |pairs| - 1;
      PendingZero(pairs[..n], done, x);
      assert forall p :: HasEdge(Edges(pairs), p, x) <==> HasEdge(Edges(pairs[..n]), p, x) || pairs[n] == (p, x);
    }
  }

  lemma {:induction false} ChildListIs<T>(pairs: seq<(T, T)>, p: T, c: T)
    ensures c in ChildList(pairs, p) <==> HasEdge(Edges(pairs), p, c)
  {
    if pairs != [] {
      var n := |pairs| - 1;
      ChildListIs(pairs[..n], p, c);
      assert HasEdge(Edges(pairs), p, c) <==> HasEdge(Edges(pairs[..n]), p, c) || pairs[n] == (p, c);
    }
  }

  lemma EdgeEnds<T>(pairs: seq<(T, T)>, p: T, c: T)
    requires HasEdge(Edges(pairs), p, c)
    ensures p in Elements(pairs) && c in Elements(pairs)
  {
    assert (p, c).0 in Elements(pairs) && (p, c).1 in Elements(pairs);
  }

  // ---------- the tables ----------

  /** The two dictionaries after the elements of done have been processed:
      each remaining element carries its count of pairs from unprocessed
      parents, each unprocessed parent its full list of children. */
  ghost predicate Tables<T(!new)>(pairs: seq<(T, T)>, nodes: set<T>, done: set<T>,
                                  numParents: map<T, int>, children: map<T, seq<T>>) {
    && numParents.Keys == nodes - done
    && (forall x :: x in numParents ==> numParents[x] == Pending(pairs, done, x))
    && ChildTable(pairs, done, children)
  }

  ghost predicate ChildTable<T(!new)>(pairs: seq<(T, T)>, done: set<T>, children: map<T, seq<T>>) {
    && (forall p :: p in children ==> p !in done && children[p] == ChildList(pairs, p))
    && (forall p :: p !in done && ChildList(pairs, p) != [] ==> p in children)
  }

  /** Every element that appears in a pair is a node. */
  ghost predicate Covers<T>(nodes: set<T>, pairs: seq<(T, T)>) {
    Elements(pairs) <= nodes
  }

  /** What one more pair does to the specification of the tables. */
  lemma OneMorePair<T(!new)>(pairs: seq<(T, T)>, i: nat)
    requires i < |pairs|
    ensures Elements(pairs[..i + 1]) == Elements(pairs[..i]) + {pairs[i].0, pairs[i].1}
    ensures forall x :: Pending(pairs[..i + 1], {}, x) == Pending(pairs[..i], {}, x) + if pairs[i].1 == x then 1 else 0
    ensures forall p :: ChildList(pairs[..i + 1], p) ==
                        ChildList(pairs[..i], p) + if pairs[i].0 == p then [pairs[i].1] else []
  {
    var now := pairs[..i + 1];
    assert now[..i] == pairs[..i] && now == pairs[..i] + [pairs[i]];
    forall x ensures x in Elements(now) <==> x in Elements(pairs[..i]) || x == pairs[i].0 || x == pairs[i].1 {
      if x in Elements(now) {
        var e :| e in now && (e.0 == x || e.1 == x);
        assert e in pairs[..i] || e == pairs[i];
      } else {
        assert pairs[i] in now;
        assert forall e :: e in pairs[..i] ==> e in now;
      }
    }
  }

  /** The tables after some of the pairs: a missing count is 0, a missing child
      list is empty. */
  ghost predicate Built<T(!new)>(pairs: seq<(T, T)>, numParents: map<T, int>, children: map<T, seq<T>>) {
    && numParents.Keys == Elements(pairs)
    && (forall x :: Pending(pairs, {}, x) == CountOf(numParents, x))
    && forall p :: ChildList(pairs, p) == ListOf(children, p)
  }

  function CountOf<T(==)>(counts: map<T, int>, x: T): int {
    if x in counts then counts[x] else 0
  }

  function ListOf<T(==)>(table: map<T, seq<T>>, p: T): seq<T> {
    if p in table then table[p] else []
  }

  /** Body of the table-building loop. */
  method AddPair<T(==,!new)>(parent: T, child: T, counts: map<T, int>, table: map<T, seq<T>>)
    returns (numParents: map<T, int>, children: map<T, seq<T>>)
    ensures numParents.Keys == counts.Keys + {parent, child}
    ensures forall x :: CountOf(numParents, x) == CountOf(counts, x) + if child == x then 1 else 0
    ensures forall p :: ListOf(children, p) == ListOf(table, p) + if parent == p then [child] else []
  {
    numParents, children := counts, table;
    if parent !in numParents {
      numParents := numParents[parent := 0];
    }
    if child !in numParents {
      numParents := numParents[child := 0];
    }
    numParents := numParents[child := numParents[child] + 1];
    var siblings := if parent in children then children[parent] else [];
    children := children[parent := siblings + [child]];
  }

  /** The table-building loop shared by topsort and topsort_levels. */
  method BuildTables<T(==,!new)>(pairs: seq<(T, T)>) returns (numParents: map<T, int>, children: map<T, seq<T>>)
    ensures Tables(pairs, Elements(pairs), {}, numParents, children)
  {
    numParents, children := map[], map[];
    for i := 0 to |pairs|
      invariant Built(pairs[..i], numParents, children)
    {
      OneMorePair(pairs, i);
      numParents, children := AddPair(pairs[i].0, pairs[i].1, numParents, children);
    }
    assert pairs[..|pairs|] == pairs;
    assert forall x :: x in numParents ==> numParents[x] == CountOf(numParents, x);
    assert forall p :: p in children ==> children[p] == ListOf(children, p);
  }

  /** The keys whose count is zero, in whatever order the dictionary lists them. */
  method ZeroKeys<T(==,!new)>(numParents: map<T, int>) returns (zeros: seq<T>)
    ensures Distinct(zeros)
    ensures Range(zeros) == set x | x in numParents && numParents[x] == 0
  {
    zeros := [];
    var keys := numParents.Keys;
    while keys != {}
      invariant keys <= numParents.Keys
      invariant Distinct(zeros)
      invariant forall x :: x in zeros <==> x in numParents && x !in keys && numParents[x] == 0
    {
      var x :| x in keys;
      keys := keys - {x};
      if numParents[x] == 0 {
        zeros := zeros + [x];
      }
    }
  }

  // ---------- topsort ----------

  datatype Result<T> =
    | Sorted(answer: seq<T>)
    | CycleError(answer: seq<T>, numParents: map<T, int>, children: map<T, seq<T>>)

  /** The elements of answer that still wait to be processed are exactly the
      remaining elements without a pending parent. */
  ghost predicate Queue<T(!new)>(answer: seq<T>, k: nat, numParents: map<T, int>) {
    && k <= |answer|
    && Distinct(answer)
    && forall x :: x in answer[k..] <==> x in numParents && numParents[x] == 0
  }

  /** The state of topsort while the k-th element of the work list is being
      finished: rest holds the decrements that are still to come. */
  ghost predicate Knocking<T(!new)>(pairs: seq<(T, T)>, nodes: set<T>, k: nat, rest: multiset<T>,
                                    numParents: map<T, int>, answer: seq<T>) {
    && Queue(answer, k, numParents) && ParentsBefore(Edges(pairs), answer)
    && Range(answer) <= nodes && numParents.Keys == nodes - Range(answer[..k])
    && forall x :: x in numParents ==> numParents[x] == Pending(pairs, Range(answer[..k]), x) + rest[x]
  }

  // ---------- the order of the answer ----------

  ghost predicate ParentsIn<T(!new)>(pairs: seq<(T, T)>, c: T, done: seq<T>) {
    forall p :: HasEdge(Edges(pairs), p, c) ==> p in done
  }

  /** c joins the work list at t: the element at position t.0 of the list is the
      one of its parents that is finished last, and the pair at position t.1 is
      the last one that makes it a child of that parent. */
  ghost predicate Joins<T(!new)>(pairs: seq<(T, T)>, a: seq<T>, c: T, t: Time) {
    && t.0 < |a| && t.1 < |pairs| && pairs[t.1] == (a[t.0], c)
    && (forall m :: t.1 < m < |pairs| ==> pairs[m] != (a[t.0], c))
    && ParentsIn(pairs, c, a[..t.0 + 1])
  }

  type Time = (nat, nat)

  predicate Earlier(s: Time, t: Time) {
    s.0 < t.0 || (s.0 == t.0 && s.1 < t.1)
  }

  /** times[y] is when the y-th of the elements after the first r has joined. */
  ghost predicate TimedAt<T(!new)>(pairs: seq<(T, T)>, a: seq<T>, times: seq<Time>, now: Time, y: nat)
    requires |times| <= |a| && y < |times|
  {
    var x := |a| - |times| + y;
    && Joins(pairs, a, a[x], times[y]) && times[y].0 < x && Earlier(times[y], now)
    && forall z :: 0 <= z < y ==> Earlier(times[z], times[y])
  }

  /** The elements without a parent come first; the others follow in the order
      in which they have joined, all before now. */
  ghost predicate Timed<T(!new)>(pairs: seq<(T, T)>, a: seq<T>, times: seq<Time>, now: Time) {
    && |times| <= |a|
    && (forall x :: 0 <= x < |a| - |times| ==> ParentsIn(pairs, a[x], []))
    && forall y: nat {:trigger TimedAt(pairs, a, times, now, y)} :: y < |times| ==> TimedAt(pairs, a, times, now, y)
  }

  ghost predicate InOrder<T(!new)>(pairs: seq<(T, T)>, a: seq<T>) {
    exists times :: Timed(pairs, a, times, (|a|, 0))
  }

  lemma TimePasses<T(!new)>(pairs: seq<(T, T)>, a: seq<T>, times: seq<Time>, now: Time, later: Time)
    requires Timed(pairs, a, times, now) && !Earlier(later, now)
    ensures Timed(pairs, a, times, later)
  {
    forall y: nat | y < |times| ensures TimedAt(pairs, a, times, later, y) {
      assert TimedAt(pairs, a, times, now, y);
    }
  }

  lemma OneMoreJoins<T(!new)>(pairs: seq<(T, T)>, a: seq<T>, times: seq<Time>, now: Time, c: T, t: Time)
    requires Timed(pairs, a, times, now) && !Earlier(t, now) && Joins(pairs, a, c, t)
    ensures Timed(pairs, a + [c], times + [t], (t.0, t.1 + 1))
  {
    var b, more, next := a + [c], times + [t], (t.0, t.1 + 1);
    forall y: nat | y < |more| ensures TimedAt(pairs, b, more, next, y) {
      if y < |times| {
        assert TimedAt(pairs, a, times, now, y);
        assert b[..times[y].0 + 1] == a[..times[y].0 + 1];
      } else {
        assert b[..t.0 + 1] == a[..t.0 + 1];
        forall z | 0 <= z < y ensures Earlier(more[z], t) {
          assert TimedAt(pairs, a, times, now, z);
        }
      }
    }
  }

  /** An element joins at one time only. */
  lemma JoinsOnce<T(!new)>(pairs: seq<(T, T)>, a: seq<T>, c: T, s: Time, t: Time)
    requires Distinct(a) && Joins(pairs, a, c, s) && Joins(pairs, a, c, t)
    ensures s == t
  {
    assert HasEdge(Edges(pairs), a[s.0], c) && HasEdge(Edges(pairs), a[t.0], c);
    assert a[s.0] in a[..t.0 + 1] && a[t.0] in a[..s.0 + 1];
  }

  /** The order of the answer, for any two of its elements. */
  lemma OrderOfTwo<T(!new)>(pairs: seq<(T, T)>, a: seq<T>, x: nat, y: nat)
    requires InOrder(pairs, a) && Distinct(a) && x < y < |a|
    ensures ParentsIn(pairs, a[y], []) ==> ParentsIn(pairs, a[x], [])
    ensures !ParentsIn(pairs, a[y], []) ==> exists t :: Joins(pairs, a, a[y], t)
    ensures forall s: Time, t: Time :: Joins(pairs, a, a[x], s) && Joins(pairs, a, a[y], t) ==> Earlier(s, t)
  {
    var times: seq<Time> :| Timed(pairs, a, times, (|a|, 0));
    var r := |a| - |times|;
    forall z: nat | r <= z < |a| ensures Joins(pairs, a, a[z], times[z - r]) && !ParentsIn(pairs, a[z], []) {
      assert TimedAt(pairs, a, times, (|a|, 0), z - r);
      assert HasEdge(Edges(pairs), a[times[z - r].0], a[z]);
    }
    forall s: Time, t: Time | Joins(pairs, a, a[x], s) && Joins(pairs, a, a[y], t) ensures Earlier(s, t) {
      assert HasEdge(Edges(pairs), a[s.0], a[x]);
      assert x >= r;
      JoinsOnce(pairs, a, a[x], s, times[x - r]);
      JoinsOnce(pairs, a, a[y], t, times[y - r]);
      assert TimedAt(pairs, a, times, (|a|, 0), y - r);
    }
  }

  lemma SameJoins<T(!new)>(pairs: seq<(T, T)>, a: seq<T>, b: seq<T>, c: T, t: Time, n: nat)
    requires n <= |a| && n <= |b| && a[..n] == b[..n] && t.0 < n && Joins(pairs, a, c, t)
    ensures Joins(pairs, b, c, t)
  {
    assert a[..t.0 + 1] == a[..n][..t.0 + 1] == b[..t.0 + 1];
    assert a[t.0] == a[..n][t.0] == b[t.0];
  }

  /** When an element of the answer has joined: at an earlier position. */
  lemma JoinTime<T(!new)>(pairs: seq<(T, T)>, a: seq<T>, x: nat) returns (t: Time)
    requires InOrder(pairs, a) && x < |a| && !ParentsIn(pairs, a[x], [])
    ensures Joins(pairs, a, a[x], t) && t.0 < x
  {
    var times: seq<Time> :| Timed(pairs, a, times, (|a|, 0));
    var r := |a| - |times|;
    assert TimedAt(pairs, a, times, (|a|, 0), x - r);
    t := times[x - r];
  }

  /** Two answers over the same elements that start with the same parentless
      elements are equal. */
  lemma {:induction false} DeterminedByRoots<T(!new)>(pairs: seq<(T, T)>, a: seq<T>, b: seq<T>, r: nat, n: nat)
    requires InOrder(pairs, a) && InOrder(pairs, b) && Distinct(a) && Distinct(b) && Range(a) == Range(b)
    requires r <= n <= |a| && |a| == |b| && a[..r] == b[..r]
    requires forall x :: x in a[r..] ==> !ParentsIn(pairs, x, [])
    ensures a[..n] == b[..n]
  {
    if n > r {
      var m := n - 1;
      DeterminedByRoots(pairs, a, b, r, m);
      if a[m] != b[m] {
        NextIsSame(pairs, a, b, r, m);
      }
      assert a[..n] == a[..m] + [a[m]] && b[..n] == b[..m] + [b[m]];
    }
  }

  /** The m-th element of a joins b at the same time, if the lists agree so far. */
  lemma JoinsBoth<T(!new)>(pairs: seq<(T, T)>, a: seq<T>, b: seq<T>, m: nat) returns (t: Time)
    requires InOrder(pairs, a) && m < |a| && m <= |b| && a[..m] == b[..m] && !ParentsIn(pairs, a[m], [])
    ensures Joins(pairs, a, a[m], t) && Joins(pairs, b, a[m], t)
  {
    t := JoinTime(pairs, a, m);
    SameJoins(pairs, a, b, a[m], t, m);
  }

  lemma InFront<T(!new)>(pairs: seq<(T, T)>, a: seq<T>, m: nat, d: T, s: Time, t: Time)
    requires InOrder(pairs, a) && Distinct(a) && m < |a| && d in a && d !in a[..m] && d != a[m]
    requires Joins(pairs, a, a[m], s) && Joins(pairs, a, d, t)
    ensures Earlier(s, t)
  {
    var z: nat :| z < |a| && a[z] == d;
    OrderOfTwo(pairs, a, m, z);
  }

  lemma NextIsSame<T(!new)>(pairs: seq<(T, T)>, a: seq<T>, b: seq<T>, r: nat, m: nat)
    requires InOrder(pairs, a) && InOrder(pairs, b) && Distinct(a) && Distinct(b) && Range(a) == Range(b)
    requires r <= m < |a| && |a| == |b| && a[..m] == b[..m]
    requires forall x :: x in a[r..] ==> !ParentsIn(pairs, x, [])
    ensures a[m] == b[m]
  {
    var c, d := a[m], b[m];
    assert c in Range(a) && d in Range(b);
    assert c !in a[..m] && d !in b[..m];
    assert a == a[..r] + a[r..] && a[..m] == a[..r] + a[r..m];
    assert d in a[r..] && c in a[r..];
    if c != d {
      var s := JoinsBoth(pairs, a, b, m);
      var t := JoinsBoth(pairs, b, a, m);
      InFront(pairs, a, m, d, s, t);
      InFront(pairs, b, m, c, t, s);
      assert false;
    }
  }

  /** The positions of the pairs that the entries of a child list come from. */
  ghost predicate From<T>(pairs: seq<(T, T)>, p: T, kids: seq<T>, pos: seq<nat>) {
    && |pos| == |kids|
    && (forall j :: 0 <= j < |pos| ==> pos[j] < |pairs| && pairs[pos[j]] == (p, kids[j]))
    && (forall i, j :: 0 <= i < j < |pos| ==> pos[i] < pos[j])
    && (forall n: nat :: n < |pairs| && pairs[n].0 == p ==> n in pos)
  }

  lemma {:induction false} ChildPositions<T>(pairs: seq<(T, T)>, p: T) returns (pos: seq<nat>)
    ensures From(pairs, p, ChildList(pairs, p), pos)
  {
    if pairs == [] {
      pos := [];
    } else {
      var n := |pairs| - 1;
      pos := ChildPositions(pairs[..n], p);
      if pairs[n].0 == p {
        pos := pos + [n];
      }
      forall m: nat | m < |pairs| && pairs[m].0 == p ensures m in pos {
        assert m < n ==> pairs[..n][m] == pairs[m];
      }
    }
  }

  /** One decrement: a child whose count reaches zero has all its parents among
      the finished elements and joins the work list. */
  lemma KnockOne<T(!new)>(pairs: seq<(T, T)>, nodes: set<T>, k: nat, rest: multiset<T>,
                          counts: map<T, int>, answer: seq<T>, child: T)
    requires Knocking(pairs, nodes, k, rest, counts, answer)
    requires child in counts && child in rest
    ensures counts[child] == 1 ==>
              Knocking(pairs, nodes, k, rest - multiset{child}, counts[child := 0], answer + [child])
    ensures counts[child] == 1 ==> rest[child] == 1 && ParentsIn(pairs, child, answer[..k])
    ensures counts[child] != 1 ==>
              Knocking(pairs, nodes, k, rest - multiset{child}, counts[child := counts[child] - 1], answer)
  {
    assert answer == answer[..k] + answer[k..];
    assert child in nodes && child !in answer;
    var b := answer + [child];
    if counts[child] == 1 {
      assert b[k..] == answer[k..] + [child] && b[..k] == answer[..k];
      PendingZero(pairs, Range(answer[..k]), child);
      Append(Edges(pairs), answer, k, child);
    }
  }

  /** After the first j entries of the child list of the k-th element. */
  function NowAt(k: nat, pos: seq<nat>, j: nat): Time
    requires j <= |pos|
  {
    (k, if j == 0 then 0 else pos[j - 1] + 1)
  }

  /** The next entry joins, or it does not. */
  lemma TimeStep<T(!new)>(pairs: seq<(T, T)>, a: seq<T>, times: seq<Time>, k: nat, kids: seq<T>, pos: seq<nat>,
                          j: nat, joins: bool) returns (after: seq<Time>)
    requires k < |a| && From(pairs, a[k], kids, pos) && j < |kids| && Timed(pairs, a, times, NowAt(k, pos, j))
    requires joins ==> multiset(kids[j..])[kids[j]] == 1 && ParentsIn(pairs, kids[j], a[..k + 1])
    ensures Timed(pairs, if joins then a + [kids[j]] else a, after, NowAt(k, pos, j + 1))
  {
    TimePasses(pairs, a, times, NowAt(k, pos, j), (k, pos[j]));
    after := times;
    if joins {
      LastPair(pairs, a, k, kids, pos, j);
      OneMoreJoins(pairs, a, times, (k, pos[j]), kids[j], (k, pos[j]));
      after := times + [(k, pos[j])];
    } else {
      TimePasses(pairs, a, times, (k, pos[j]), NowAt(k, pos, j + 1));
    }
  }

  /** The state before the j-th entry of the child list of the k-th element. */
  ghost predicate AtChild<T(!new)>(pairs: seq<(T, T)>, nodes: set<T>, k: nat, kids: seq<T>, pos: seq<nat>, j: nat,
                                   counts: map<T, int>, answer: seq<T>, times: seq<Time>) {
    && j <= |kids| == |pos| && Knocking(pairs, nodes, k + 1, multiset(kids[j..]), counts, answer)
    && Timed(pairs, answer, times, NowAt(k, pos, j))
  }

  /** Body of the inner loop: one decrement. */
  method KnockChild<T(==,!new)>(ghost pairs: seq<(T, T)>, ghost nodes: set<T>, ghost k: nat, ghost kids: seq<T>,
                                ghost pos: seq<nat>, ghost j: nat, child: T,
                                counts: map<T, int>, queue: seq<T>, ghost times: seq<Time>)
    returns (numParents: map<T, int>, answer: seq<T>, ghost after: seq<Time>)
    requires k < |queue| && j < |kids| && child == kids[j] && From(pairs, queue[k], kids, pos)
    requires AtChild(pairs, nodes, k, kids, pos, j, counts, queue, times)
    requires child in nodes && child !in Range(queue[..k + 1])
    ensures queue <= answer && AtChild(pairs, nodes, k, kids, pos, j + 1, numParents, answer, after)
  {
    assert kids[j..] == [child] + kids[j + 1..];
    assert multiset(kids[j + 1..]) == multiset(kids[j..]) - multiset{child};
    KnockOne(pairs, nodes, k + 1, multiset(kids[j..]), counts, queue, child);
    after := TimeStep(pairs, queue, times, k, kids, pos, j, counts[child] == 1);
    numParents, answer := counts[child := counts[child] - 1], queue;
    if numParents[child] == 0 {
      answer := answer + [child];
    }
  }

  lemma FirstChild<T(!new)>(pairs: seq<(T, T)>, nodes: set<T>, k: nat, kids: seq<T>, pos: seq<nat>,
                            counts: map<T, int>, answer: seq<T>, times: seq<Time>)
    requires Knocking(pairs, nodes, k + 1, multiset(kids), counts, answer) && Timed(pairs, answer, times, (k, 0))
    requires |pos| == |kids|
    ensures AtChild(pairs, nodes, k, kids, pos, 0, counts, answer, times)
  {
    assert kids[0..] == kids;
  }

  lemma NoMoreChildren<T(!new)>(pairs: seq<(T, T)>, nodes: set<T>, k: nat, kids: seq<T>, pos: seq<nat>,
                                counts: map<T, int>, answer: seq<T>, times: seq<Time>)
    requires AtChild(pairs, nodes, k, kids, pos, |kids|, counts, answer, times)
    ensures Knocking(pairs, nodes, k + 1, multiset{}, counts, answer) && Timed(pairs, answer, times, (k + 1, 0))
  {
    assert kids[|kids|..] == [];
    TimePasses(pairs, answer, times, NowAt(k, pos, |kids|), (k + 1, 0));
  }

  /** Inner loop of topsort: knock down the counts of the children of
      queue[k], queueing each child whose count reaches zero. */
  method KnockDown<T(==,!new)>(ghost pairs: seq<(T, T)>, ghost nodes: set<T>, ghost k: nat, kids: seq<T>,
                               counts: map<T, int>, queue: seq<T>, ghost times: seq<Time>)
    returns (numParents: map<T, int>, answer: seq<T>, ghost after: seq<Time>)
    requires Covers(nodes, pairs) && Knocking(pairs, nodes, k + 1, multiset(kids), counts, queue)
    requires kids == ChildList(pairs, queue[k])
    requires Pending(pairs, Range(queue[..k]), queue[k]) == 0
    requires Timed(pairs, queue, times, (k, 0))
    ensures queue <= answer && Knocking(pairs, nodes, k + 1, multiset{}, numParents, answer)
    ensures Timed(pairs, answer, after, (k + 1, 0))
  {
    numParents, answer, after := counts, queue, times;
    ghost var pos := ChildPositions(pairs, queue[k]);
    FirstChild(pairs, nodes, k, kids, pos, counts, queue, times);
    forall c | c in kids ensures c in nodes && c !in Range(queue[..k + 1]) {
      ChildIsOpen(pairs, nodes, queue, k, c);
    }
    for j := 0 to |kids|
      invariant queue <= answer && AtChild(pairs, nodes, k, kids, pos, j, numParents, answer, after)
    {
      assert answer[..k + 1] == queue[..k + 1] && answer[k] == queue[k];
      numParents, answer, after := KnockChild(pairs, nodes, k, kids, pos, j, kids[j], numParents, answer, after);
    }
    NoMoreChildren(pairs, nodes, k, kids, pos, numParents, answer, after);
  }

  /** The last entry for a child whose parents are all finished. */
  lemma LastPair<T(!new)>(pairs: seq<(T, T)>, a: seq<T>, k: nat, kids: seq<T>, pos: seq<nat>, j: nat)
    requires k < |a| && From(pairs, a[k], kids, pos) && j < |kids|
    requires multiset(kids[j..])[kids[j]] == 1 && ParentsIn(pairs, kids[j], a[..k + 1])
    ensures Joins(pairs, a, kids[j], (k, pos[j]))
  {
    assert kids[j..] == [kids[j]] + kids[j + 1..];
    forall m | pos[j] < m < |pairs| ensures pairs[m] != (a[k], kids[j]) {
      if pairs[m].0 == a[k] {
        var i: nat :| i < |pos| && pos[i] == m;
        assert i > j && kids[i] in kids[j + 1..];
      }
    }
  }

  /** Taking the next element off the work list leaves as many decrements to
      come as it has entries in its child list. */
  lemma TakeNext<T(!new)>(pairs: seq<(T, T)>, nodes: set<T>, k: nat, counts: map<T, int>, answer: seq<T>)
    requires Knocking(pairs, nodes, k, multiset{}, counts, answer) && k < |answer|
    ensures answer[k] in counts && Range(answer[..k + 1]) == Range(answer[..k]) + {answer[k]}
    ensures answer[k] !in Range(answer[..k]) && Pending(pairs, Range(answer[..k]), answer[k]) == 0
    ensures Knocking(pairs, nodes, k + 1, multiset(ChildList(pairs, answer[k])), counts - {answer[k]}, answer)
  {
    var parent, done := answer[k], Range(answer[..k]);
    assert answer[k..] == [parent] + answer[k + 1..];
    assert answer == answer[..k + 1] + answer[k + 1..];
    assert Range(answer[..k + 1]) == done + {parent};
    SplitAll(pairs, done, parent);
  }

  lemma SplitAll<T(!new)>(pairs: seq<(T, T)>, done: set<T>, parent: T)
    requires parent !in done
    ensures forall x :: Pending(pairs, done, x) ==
                        Pending(pairs, done + {parent}, x) + multiset(ChildList(pairs, parent))[x]
  {
    forall x {
      PendingSplit(pairs, done, parent, x);
    }
  }

  /** A child of the element being processed has not been processed itself:
      topsort never looks up a deleted counter. */
  lemma ChildIsOpen<T(!new)>(pairs: seq<(T, T)>, nodes: set<T>, queue: seq<T>, k: nat, child: T)
    requires k < |queue| && Distinct(queue) && ParentsBefore(Edges(pairs), queue)
    requires Covers(nodes, pairs)
    requires child in ChildList(pairs, queue[k])
    requires Pending(pairs, Range(queue[..k]), queue[k]) == 0
    ensures child in nodes && child !in Range(queue[..k + 1])
  {
    ChildListIs(pairs, queue[k], child);
    EdgeEnds(pairs, queue[k], child);
    PendingZero(pairs, Range(queue[..k]), queue[k]);
    assert forall i :: 0 <= i <= k ==> queue[k] !in queue[..i];
  }

  lemma Append<T(!new)>(edges: set<(T, T)>, a: seq<T>, k: nat, c: T)
    requires k <= |a| && ParentsBefore(edges, a)
    requires forall p :: HasEdge(edges, p, c) ==> p in a[..k]
    ensures ParentsBefore(edges, a + [c])
  {
    var b := a + [c];
    forall i, p | 0 <= i < |b| && HasEdge(edges, p, b[i]) ensures p in b[..i] {
      if i < |a| {
        assert b[..i] == a[..i];
      } else {
        assert a[..k] <= b[..i];
      }
    }
  }

  lemma StartQueue<T(!new)>(pairs: seq<(T, T)>, counts: map<T, int>, zeros: seq<T>)
    requires counts.Keys == Elements(pairs)
    requires forall x :: x in counts ==> counts[x] == Pending(pairs, {}, x)
    requires Distinct(zeros) && Range(zeros) == set x | x in counts && counts[x] == 0
    ensures Knocking(pairs, Elements(pairs), 0, multiset{}, counts, zeros)
  {
    assert zeros[0..] == zeros && Range(zeros[..0]) == {};
    assert forall x :: x in zeros <==> x in Range(zeros);
    forall z, p | z in zeros ensures !HasEdge(Edges(pairs), p, z) {
      PendingZero(pairs, {}, z);
    }
  }

  lemma StartTimes<T(!new)>(pairs: seq<(T, T)>, counts: map<T, int>, zeros: seq<T>) returns (times: seq<Time>)
    requires forall x :: x in counts ==> counts[x] == Pending(pairs, {}, x)
    requires Range(zeros) == set x | x in counts && counts[x] == 0
    ensures Timed(pairs, zeros, times, (0, 0))
  {
    times := [];
    forall x | 0 <= x < |zeros| ensures ParentsIn(pairs, zeros[x], []) {
      assert zeros[x] in Range(zeros);
      PendingZero(pairs, {}, zeros[x]);
    }
  }

  /** Dropping a finished parent from the children table. */
  lemma Forget<T(!new)>(pairs: seq<(T, T)>, done: set<T>, children: map<T, seq<T>>, parent: T)
    requires ChildTable(pairs, done, children) && parent !in done
    ensures ChildTable(pairs, done + {parent}, children - {parent})
    ensures ChildList(pairs, parent) == if parent in children then children[parent] else []
    ensures parent !in children ==> children - {parent} == children
  {
  }

  /** The state of topsort before the k-th element is processed. */
  ghost predicate AtElement<T(!new)>(pairs: seq<(T, T)>, k: nat, counts: map<T, int>, table: map<T, seq<T>>,
                                     answer: seq<T>, times: seq<Time>) {
    && Knocking(pairs, Elements(pairs), k, multiset{}, counts, answer)
    && ChildTable(pairs, Range(answer[..k]), table) && Timed(pairs, answer, times, (k, 0))
  }

  /** One turn of the outer loop of topsort: process the k-th element. */
  method Process<T(==,!new)>(ghost pairs: seq<(T, T)>, k: nat, counts: map<T, int>, table: map<T, seq<T>>,
                             queue: seq<T>, ghost times: seq<Time>)
    returns (numParents: map<T, int>, children: map<T, seq<T>>, answer: seq<T>, ghost after: seq<Time>)
    requires k < |queue| && AtElement(pairs, k, counts, table, queue, times)
    ensures queue <= answer && AtElement(pairs, k + 1, numParents, children, answer, after)
    ensures numParents.Keys < counts.Keys
  {
    var parent := queue[k];
    TakeNext(pairs, Elements(pairs), k, counts, queue);
    Forget(pairs, Range(queue[..k]), table, parent);
    numParents, children, answer, after := counts - {parent}, table, queue, times;
    TimePasses(pairs, queue, times, (k, 0), (k + 1, 0));
    if parent in children {
      numParents, answer, after := KnockDown(pairs, Elements(pairs), k, children[parent], numParents, answer, times);
      assert answer[..k + 1] == queue[..k + 1];
      children := children - {parent};
    }
    assert parent in counts.Keys && parent !in numParents.Keys;
  }

  /** Kahn's algorithm.  It returns exactly on acyclic relations; the answer
      lists every element once, each parent before its children.  Otherwise the
      error carries the elements that are reachable from a cycle with their
      pending counts, and answer holds exactly the others.  Either way the answer
      is in order: it is determined by the order of the parentless elements. */
  method Sort<T(==,!new)>(pairs: seq<(T, T)>) returns (r: Result<T>)
    ensures r.Sorted? <==> Acyclic(Edges(pairs))
    ensures Distinct(r.answer) && ParentsBefore(Edges(pairs), r.answer)
    ensures InOrder(pairs, r.answer)
    ensures Range(r.answer) == Elements(pairs) - CyclicPart(Edges(pairs), Elements(pairs))
    ensures r.Sorted? ==> Range(r.answer) == Elements(pairs)
    ensures r.CycleError? ==> r.numParents.Keys == CyclicPart(Edges(pairs), Elements(pairs))
    ensures r.CycleError? ==> Tables(pairs, Elements(pairs), Range(r.answer), r.numParents, r.children)
  {
    var numParents, children := BuildTables(pairs);
    var answer := ZeroKeys(numParents);
    StartQueue(pairs, numParents, answer);
    assert Range(answer[..0]) == {};
    ghost var times := StartTimes(pairs, numParents, answer);
    var k := 0;
    while k < |answer|
      invariant k <= |answer| && AtElement(pairs, k, numParents, children, answer, times)
      decreases numParents.Keys
    {
      numParents, children, answer, times := Process(pairs, k, numParents, children, answer, times);
      k := k + 1;
    }
    Finished(pairs, answer, numParents);
    assert answer[..k] == answer;
    r := if numParents.Keys != {} then CycleError(answer, numParents, children) else Sorted(answer);
  }

  /** When the work list is exhausted, the elements left over are those
      reachable from a cycle: every one of them has a parent left over. */
  lemma Finished<T(!new)>(pairs: seq<(T, T)>, answer: seq<T>, numParents: map<T, int>)
    requires Knocking(pairs, Elements(pairs), |answer|, multiset{}, numParents, answer)
    ensures numParents.Keys == CyclicPart(Edges(pairs), Elements(pairs)) == Elements(pairs) - Range(answer)
    ensures numParents.Keys == {} <==> Acyclic(Edges(pairs))
  {
    assert answer[..|answer|] == answer && answer[|answer|..] == [];
    assert forall x :: x in numParents ==> numParents[x] != 0 by {
      assert forall x :: x in numParents && numParents[x] == 0 ==> x in answer[|answer|..];
    }
    WithinElements(pairs, Elements(pairs));
    LeftoverHasParents(pairs, Elements(pairs), Range(answer));
    LeftoverIsCyclic(Edges(pairs), Elements(pairs), answer);
    AcyclicIff(Edges(pairs), Elements(pairs));
  }

  lemma WithinElements<T(!new)>(pairs: seq<(T, T)>, nodes: set<T>)
    requires Covers(nodes, pairs)
    ensures EdgesWithin(Edges(pairs), nodes)
  {
    forall p, c | HasEdge(Edges(pairs), p, c) ensures p in nodes && c in nodes {
      EdgeEnds(pairs, p, c);
    }
  }

  lemma LeftoverHasParents<T(!new)>(pairs: seq<(T, T)>, nodes: set<T>, done: set<T>)
    requires Covers(nodes, pairs)
    requires forall x :: x in nodes - done ==> Pending(pairs, done, x) != 0
    ensures EveryoneHasParent(Edges(pairs), nodes - done)
  {
    forall c | c in nodes - done ensures HasParentIn(Edges(pairs), nodes - done, c) {
      PendingZero(pairs, done, c);
      var p :| HasEdge(Edges(pairs), p, c) && p !in done;
      EdgeEnds(pairs, p, c);
    }
  }

  /** A leftover element need not have a child: with these pairs 1 lies on a
      cycle and 2 is left over behind it. */
  lemma ChildlessLeftover(pairs: seq<(int, int)>)
    requires pairs == [(1, 1), (1, 2)]
    ensures 2 in CyclicPart(Edges(pairs), Elements(pairs))
    ensures forall c :: !HasEdge(Edges(pairs), 2, c)
  {
    var edges := Edges(pairs);
    assert pairs[0] in pairs && pairs[1] in pairs;
    assert HasEdge(edges, 1, 1) && HasEdge(edges, 1, 2);
    assert StepAt(edges, [1, 1], 0);
    assert ClosedWalk(edges, 1, [1, 1]);
    assert StepAt(edges, [1, 2], 0);
    assert WalkFromCycle(edges, 2, [1, 2]);
    EdgeEnds(pairs, 1, 2);
  }

  /** Children join in the order of their pairs: these pairs have one answer. */
  lemma ChildrenInOrder(pairs: seq<(int, int)>, a: seq<int>)
    requires pairs == [(1, 3), (1, 2)]
    requires InOrder(pairs, a) && Distinct(a) && Range(a) == {1, 2, 3}
    ensures a == [1, 3, 2]
  {
    assert pairs[0] in pairs && pairs[1] in pairs;
    assert HasEdge(Edges(pairs), 1, 3) && HasEdge(Edges(pairs), 1, 2);
    DistinctSize(a);
    assert 1 in Range(a) && 2 in Range(a) && 3 in Range(a);
    var i: nat :| i < |a| && a[i] == 1;
    var j: nat :| j < |a| && a[j] == 2;
    var k: nat :| k < |a| && a[k] == 3;
    assert !ParentsIn(pairs, 2, []) && !ParentsIn(pairs, 3, []);
    var s := JoinTime(pairs, a, j);
    var t := JoinTime(pairs, a, k);
    assert s == (i, 1) && t == (i, 0);
    if j < k {
      OrderOfTwo(pairs, a, j, k);
    }
  }
}
