/** topsort_levels and topsort_levels_core of bindings/python/topsort.py: the
    elements grouped by the length of their longest chain of ancestors. */
module Levels {
  import opened Graphs
  import opened Topsort

  /** The longest chain of ancestors of x has exactly k edges. */
  ghost predicate LongestChain<T(!new)>(edges: set<(T, T)>, x: T, k: nat) {
    HasChain(edges, x, k) && forall m: nat :: HasChain(edges, x, m) ==> m <= k
  }

  ghost function LevelSet<T(!new)>(edges: set<(T, T)>, nodes: set<T>, k: nat): set<T> {
    set x | x in nodes && LongestChain(edges, x, k)
  }

  /** The nodes without a chain of k ancestors: those of the levels below k. */
  ghost function Below<T(!new)>(edges: set<(T, T)>, nodes: set<T>, k: nat): set<T> {
    set x | x in nodes && !HasChain(edges, x, k)
  }

  lemma LongestIff<T(!new)>(edges: set<(T, T)>, x: T, k: nat)
    ensures LongestChain(edges, x, k) <==> HasChain(edges, x, k) && !HasChain(edges, x, k + 1)
  {
    if HasChain(edges, x, k) && !HasChain(edges, x, k + 1) {
      forall m: nat | HasChain(edges, x, m) ensures m <= k {
        if m > k {
          ChainShorter(edges, x, m, k + 1);
        }
      }
    }
  }

  /** A parent of a node below level k is itself below level k. */
  lemma BelowClosed<T(!new)>(edges: set<(T, T)>, nodes: set<T>, k: nat, p: T, c: T)
    requires HasEdge(edges, p, c) && p in nodes && c in Below(edges, nodes, k)
    ensures p in Below(edges, nodes, k)
  {
    if HasChain(edges, p, k) {
      ChainStep(edges, c, k);
      ChainShorter(edges, c, k + 1, k);
    }
  }

  /** Among the nodes with a chain of k ancestors, those all of whose parents
      are below level k are exactly level k. */
  lemma NextLevel<T(!new)>(pairs: seq<(T, T)>, nodes: set<T>, k: nat, level: set<T>)
    requires Covers(nodes, pairs)
    requires level == set x | x in nodes - Below(Edges(pairs), nodes, k)
                              && Pending(pairs, Below(Edges(pairs), nodes, k), x) == 0
    ensures level == LevelSet(Edges(pairs), nodes, k)
    ensures Below(Edges(pairs), nodes, k + 1) == Below(Edges(pairs), nodes, k) + level
  {
    var edges := Edges(pairs);
    WithinElements(pairs, nodes);
    forall x | x in nodes
      ensures x in level <==> LongestChain(edges, x, k)
      ensures x in Below(edges, nodes, k + 1) <==> x in Below(edges, nodes, k) || x in level
    {
      LongestIff(edges, x, k);
      ChainStep(edges, x, k);
      PendingZero(pairs, Below(edges, nodes, k), x);
      if HasChain(edges, x, k + 1) {
        ChainShorter(edges, x, k + 1, k);
      }
    }
  }

  // ---------- the inner loops ----------

  /** The counters while a level is removed: rest holds the decrements to come. */
  ghost predicate Counts<T(!new)>(pairs: seq<(T, T)>, keys: set<T>, done: set<T>, rest: multiset<T>,
                                  numParents: map<T, int>) {
    numParents.Keys == keys && forall x :: x in keys ==> numParents[x] == Pending(pairs, done, x) + rest[x]
  }

  /** after is counts without as many units of each key as it has entries in kids. */
  ghost predicate Lowered<T(!new)>(counts: map<T, int>, kids: seq<T>, after: map<T, int>) {
    after.Keys == counts.Keys && forall x :: x in counts ==> after[x] == counts[x] - multiset(kids)[x]
  }

  /** Innermost loop: decrement the count of every child once per entry; false
      is a KeyError. */
  method Decrement<T(==,!new)>(kids: seq<T>, counts: map<T, int>) returns (ok: bool, numParents: map<T, int>)
    ensures ok <==> forall c :: c in kids ==> c in counts
    ensures ok ==> Lowered(counts, kids, numParents)
  {
    numParents := counts;
    for j := 0 to |kids|
      invariant (forall c :: c in kids[..j] ==> c in counts) && Lowered(counts, kids[..j], numParents)
    {
      assert kids[..j + 1] == kids[..j] + [kids[j]];
      if kids[j] !in numParents {
        return false, numParents;
      }
      numParents := numParents[kids[j] := numParents[kids[j]] - 1];
    }
    assert kids[..|kids|] == kids;
    ok := true;
  }

  /** No element whose parents are all finished is a child of one that is not. */
  ghost predicate Ready<T(!new)>(pairs: seq<(T, T)>, done: set<T>, level: set<T>) {
    level !! done && forall p, c :: HasEdge(Edges(pairs), p, c) && c in done + level ==> p in done
  }

  lemma SplitCounts<T(!new)>(pairs: seq<(T, T)>, nodes: set<T>, done: set<T>, parent: T, counts: map<T, int>)
    requires parent !in done && counts.Keys == nodes - (done + {parent})
    requires forall x :: x in counts ==> counts[x] == Pending(pairs, done, x)
    ensures Counts(pairs, nodes - (done + {parent}), done + {parent}, multiset(ChildList(pairs, parent)), counts)
  {
    forall x | x in counts
      ensures counts[x] == Pending(pairs, done + {parent}, x) + multiset(ChildList(pairs, parent))[x] {
      PendingSplit(pairs, done, parent, x);
    }
  }

  /** No child of parent has been finished, or is parent itself. */
  ghost predicate Removable<T(!new)>(pairs: seq<(T, T)>, nodes: set<T>, done: set<T>, parent: T) {
    parent in nodes - done && forall c :: HasEdge(Edges(pairs), parent, c) ==> c !in done && c != parent
  }

  lemma RemovedOne<T(!new)>(pairs: seq<(T, T)>, nodes: set<T>, done: set<T>, parent: T, counts: map<T, int>,
                            table: map<T, seq<T>>)
    requires Covers(nodes, pairs) && Tables(pairs, nodes, done, counts, table) && Removable(pairs, nodes, done, parent)
    ensures parent in counts && (parent in table ==> forall c :: c in table[parent] ==> c in counts - {parent})
    ensures forall after :: Lowered(counts - {parent}, if parent in table then table[parent] else [], after) ==>
                              Tables(pairs, nodes, done + {parent}, after, table - {parent})
  {
    Forget(pairs, done, table, parent);
    SplitCounts(pairs, nodes, done, parent, counts - {parent});
    if parent in table {
      forall c | c in table[parent] ensures c in counts - {parent} {
        ChildListIs(pairs, parent, c);
        EdgeEnds(pairs, parent, c);
      }
    }
  }

  /** Body of the middle loop: delete one element of the level. */
  method RemoveOne<T(==,!new)>(ghost pairs: seq<(T, T)>, ghost nodes: set<T>, ghost done: set<T>, parent: T,
                               counts: map<T, int>, table: map<T, seq<T>>)
    returns (ok: bool, numParents: map<T, int>, children: map<T, seq<T>>)
    requires parent in counts
    ensures ok <==> (parent in table ==> forall c :: c in table[parent] ==> c in counts - {parent})
    ensures ok ==> Lowered(counts - {parent}, if parent in table then table[parent] else [], numParents)
                   && children == table - {parent}
    ensures Covers(nodes, pairs) && Tables(pairs, nodes, done, counts, table)
            && Removable(pairs, nodes, done, parent) ==>
              ok && Tables(pairs, nodes, done + {parent}, numParents, children)
  {
    ok, numParents, children := true, counts - {parent}, table;
    if parent in children {
      ok, numParents := Decrement(children[parent], numParents);
      children := children - {parent};
    }
    assert parent !in table ==> table - {parent} == table;
    if Covers(nodes, pairs) && Tables(pairs, nodes, done, counts, table) && Removable(pairs, nodes, done, parent) {
      RemovedOne(pairs, nodes, done, parent, counts, table);
    }
  }

  /** The tables belong to pairs, and the level can be removed. */
  ghost predicate LevelFits<T(!new)>(pairs: seq<(T, T)>, nodes: set<T>, done: set<T>, level: set<T>,
                                     counts: map<T, int>, table: map<T, seq<T>>) {
    Covers(nodes, pairs) && Tables(pairs, nodes, done, counts, table) && Ready(pairs, done, level)
  }

  /** The first n elements of order can be deleted one after the other: every
      child of each of them has a count that is still there. */
  ghost predicate Deletable<T(!new)>(keys: set<T>, table: map<T, seq<T>>, order: seq<T>, n: nat)
    requires n <= |order|
  {
    forall i: nat {:trigger ChildrenThere(keys, table, order, i)} :: i < n ==> ChildrenThere(keys, table, order, i)
  }

  ghost predicate ChildrenThere<T(!new)>(keys: set<T>, table: map<T, seq<T>>, order: seq<T>, i: nat)
    requires i < |order|
  {
    order[i] in table ==> forall c :: c in table[order[i]] ==> c in keys && c !in order[..i + 1]
  }

  lemma NextRemovable<T(!new)>(pairs: seq<(T, T)>, nodes: set<T>, done: set<T>, level: seq<T>, i: nat)
    requires i < |level| && Distinct(level) && Range(level) <= nodes && Ready(pairs, done, Range(level))
    ensures Removable(pairs, nodes, done + Range(level[..i]), level[i])
  {
    assert level[i] in Range(level) && level[i] !in level[..i];
    assert Range(level[..i]) <= Range(level);
  }

  lemma StillThere<T(!new)>(keys: set<T>, table: map<T, seq<T>>, order: seq<T>, i: nat)
    requires i < |order| && Distinct(order) && Range(order) <= keys
    ensures var rest := table - Range(order[..i]);
      ChildrenThere(keys, table, order, i) <==>
      (order[i] in rest ==> forall c :: c in rest[order[i]] ==> c in keys - Range(order[..i]) - {order[i]})
  {
    assert order[i] in Range(order) && order[i] !in order[..i] && order[i] !in Range(order[..i]);
    assert order[..i + 1] == order[..i] + [order[i]];
    forall c ensures c in order[..i + 1] <==> c in Range(order[..i]) || c == order[i] {
      assert c in order[..i] <==> c in Range(order[..i]);
    }
    var x, rest := order[i], table - Range(order[..i]);
    assert x in rest <==> x in table;
    assert x in rest ==> rest[x] == table[x];
  }

  /** Middle loop: delete the elements of a level one after the other. */
  method RemoveLevel<T(==,!new)>(ghost pairs: seq<(T, T)>, ghost nodes: set<T>, ghost done: set<T>, level: seq<T>,
                                 counts: map<T, int>, table: map<T, seq<T>>)
    returns (ok: bool, numParents: map<T, int>, children: map<T, seq<T>>)
    requires Distinct(level) && Range(level) <= counts.Keys
    ensures ok <==> Deletable(counts.Keys, table, level, |level|)
    ensures ok ==> numParents.Keys == counts.Keys - Range(level) && children == table - Range(level)
    ensures LevelFits(pairs, nodes, done, Range(level), counts, table) ==>
              ok && Tables(pairs, nodes, done + Range(level), numParents, children)
  {
    ok, numParents, children := true, counts, table;
    ghost var fits := LevelFits(pairs, nodes, done, Range(level), counts, table);
    assert done + Range(level[..0]) == done && counts.Keys - Range(level[..0]) == counts.Keys;
    assert table - Range(level[..0]) == table;
    for i := 0 to |level|
      invariant numParents.Keys == counts.Keys - Range(level[..i]) && children == table - Range(level[..i])
      invariant ok && Deletable(counts.Keys, table, level, i)
      invariant fits ==> Tables(pairs, nodes, done + Range(level[..i]), numParents, children)
    {
      assert level[i] in Range(level) && level[i] !in level[..i];
      assert Range(level[..i + 1]) == Range(level[..i]) + {level[i]};
      assert done + Range(level[..i + 1]) == done + Range(level[..i]) + {level[i]};
      if fits {
        NextRemovable(pairs, nodes, done, level, i);
      }
      StillThere(counts.Keys, table, level, i);
      ok, numParents, children := RemoveOne(pairs, nodes, done + Range(level[..i]), level[i], numParents, children);
      assert ok <==> ChildrenThere(counts.Keys, table, level, i);
      if !ok {
        return;
      }
    }
    assert level[..|level|] == level;
  }

  // ---------- the generator ----------

  /** How the generator ends after its last level.  A KeyError comes from tables
      in which a child has no count. */
  datatype End<T> = Stop | CycleError(numParents: map<T, int>, children: map<T, seq<T>>) | KeyError

  /** level lists the k-th level, each element once, and is not empty. */
  ghost predicate Lists<T(!new)>(edges: set<(T, T)>, nodes: set<T>, k: nat, level: seq<T>) {
    level != [] && Distinct(level) && Range(level) == LevelSet(edges, nodes, k)
  }

  /** Exactly the right levels, in order, and all of them. */
  ghost predicate LevelsOf<T(!new)>(edges: set<(T, T)>, nodes: set<T>, levels: seq<seq<T>>) {
    && (forall k :: 0 <= k < |levels| ==> Lists(edges, nodes, k, levels[k]))
    && (forall k: nat :: k >= |levels| ==> LevelSet(edges, nodes, k) == {})
  }

  /** The tables belong to the pairs, with the levels below k finished. */
  ghost predicate Fits<T(!new)>(pairs: seq<(T, T)>, nodes: set<T>, k: nat, counts: map<T, int>, table: map<T, seq<T>>) {
    Covers(nodes, pairs) && Tables(pairs, nodes, Below(Edges(pairs), nodes, k), counts, table)
  }

  /** One turn of the generator: suck up the elements without a pending parent
      and, if there are any, yield and remove them. */
  method Turn<T(==,!new)>(ghost pairs: seq<(T, T)>, ghost nodes: set<T>, ghost k: nat,
                          counts: map<T, int>, table: map<T, seq<T>>)
    returns (ok: bool, level: seq<T>, numParents: map<T, int>, children: map<T, seq<T>>)
    ensures Distinct(level) && Range(level) == set x | x in counts && counts[x] == 0
    ensures level == [] ==> numParents == counts && forall x :: x in counts ==> counts[x] != 0
    ensures ok <==> Deletable(counts.Keys, table, level, |level|)
    ensures ok ==> numParents.Keys == counts.Keys - Range(level) && children == table - Range(level)
    ensures level != [] && Fits(pairs, nodes, k, counts, table) ==>
              ok && Lists(Edges(pairs), nodes, k, level) && Fits(pairs, nodes, k + 1, numParents, children)
  {
    level := ZeroKeys(counts);
    ok, numParents, children := true, counts, table;
    if level != [] {
      if Fits(pairs, nodes, k, counts, table) {
        NextLevel(pairs, nodes, k, Range(level));
        LevelIsReady(pairs, nodes, k, level);
      }
      ok, numParents, children := RemoveLevel(pairs, nodes, Below(Edges(pairs), nodes, k), level, counts, table);
    } else {
      assert forall x :: x in counts && counts[x] == 0 ==> x in Range(level);
      assert counts.Keys - Range(level) == counts.Keys && table - Range(level) == table;
    }
  }

  ghost function Flat<T>(levels: seq<seq<T>>): seq<T> {
    if levels == [] then [] else Flat(levels[..|levels| - 1]) + levels[|levels| - 1]
  }

  /** No level is empty, and every entry is a key of its own. */
  ghost predicate Divides<T>(keys: set<T>, levels: seq<seq<T>>) {
    [] !in levels && Distinct(Flat(levels)) && Range(Flat(levels)) <= keys
  }

  lemma FlatSnoc<T>(levels: seq<seq<T>>, level: seq<T>)
    ensures Flat(levels + [level]) == Flat(levels) + level
    ensures Range(Flat(levels + [level])) == Range(Flat(levels)) + Range(level)
  {
    assert (levels + [level])[..|levels|] == levels;
  }

  lemma DividesMore<T>(keys: set<T>, levels: seq<seq<T>>, level: seq<T>)
    requires Divides(keys, levels) && Distinct(level) && level != [] && Range(level) <= keys - Range(Flat(levels))
    ensures Divides(keys, levels + [level])
  {
    var f := Flat(levels);
    FlatSnoc(levels, level);
    assert forall y :: y in f ==> y in Range(f);
    assert forall y :: y in level ==> y in Range(level);
    JoinDistinct(f, level);
  }

  /** Deleting a level after the elements of order. */
  lemma DeletableMore<T(!new)>(keys: set<T>, table: map<T, seq<T>>, order: seq<T>, level: seq<T>)
    requires Range(level) <= keys - Range(order)
    ensures Deletable(keys, table, order + level, |order + level|) <==>
            Deletable(keys, table, order, |order|) &&
            Deletable(keys - Range(order), table - Range(order), level, |level|)
  {
    var all, n := order + level, |order|;
    forall i: nat | i < n ensures ChildrenThere(keys, table, all, i) <==> ChildrenThere(keys, table, order, i) {
      assert all[..i + 1] == order[..i + 1];
    }
    forall i: nat | i < |level|
      ensures ChildrenThere(keys, table, all, n + i) <==>
              ChildrenThere(keys - Range(order), table - Range(order), level, i) {
      assert level[i] in Range(level);
      assert all[..n + i + 1] == order + level[..i + 1];
      assert forall c :: c in order <==> c in Range(order);
    }
    if Deletable(keys, table, all, |all|) {
      forall i: nat | i < |level| ensures ChildrenThere(keys - Range(order), table - Range(order), level, i) {
        assert ChildrenThere(keys, table, all, n + i);
      }
    }
    if Deletable(keys, table, order, n) && Deletable(keys - Range(order), table - Range(order), level, |level|) {
      forall i: nat | i < |all| ensures ChildrenThere(keys, table, all, i) {
        if i >= n {
          assert ChildrenThere(keys - Range(order), table - Range(order), level, i - n);
        }
      }
    }
  }

  ghost predicate AllDeletable<T(!new)>(keys: set<T>, table: map<T, seq<T>>, levels: seq<seq<T>>) {
    Deletable(keys, table, Flat(levels), |Flat(levels)|)
  }

  /** What holds of the generator between two levels: left and children are what
      the levels have left of the tables. */
  ghost predicate Yielded<T(!new)>(keys: set<T>, table: map<T, seq<T>>, levels: seq<seq<T>>, left: set<T>,
                                   children: map<T, seq<T>>) {
    && Divides(keys, levels) && left + Range(Flat(levels)) == keys && left !! Range(Flat(levels))
    && children == table - Range(Flat(levels)) && AllDeletable(keys, table, levels)
  }

  lemma YieldMore<T(!new)>(keys: set<T>, table: map<T, seq<T>>, levels: seq<seq<T>>, left: set<T>,
                           children: map<T, seq<T>>, level: seq<T>)
    requires Yielded(keys, table, levels, left, children)
    requires Distinct(level) && level != [] && Range(level) <= left
    ensures Divides(keys, levels + [level])
    ensures AllDeletable(keys, table, levels + [level]) <==> Deletable(left, children, level, |level|)
    ensures AllDeletable(keys, table, levels + [level]) ==>
              Yielded(keys, table, levels + [level], left - Range(level), children - Range(level))
  {
    assert left == keys - Range(Flat(levels));
    DividesMore(keys, levels, level);
    FlatSnoc(levels, level);
    DeletableMore(keys, table, Flat(levels), level);
    assert table - Range(Flat(levels + [level])) == children - Range(level);
  }

  lemma NothingYielded<T(!new)>(keys: set<T>, table: map<T, seq<T>>)
    ensures Yielded(keys, table, [], keys, table)
  {
    assert table - Range<T>([]) == table;
  }

  /** The tables belong to the pairs. */
  ghost predicate TablesOf<T(!new)>(pairs: seq<(T, T)>, nodes: set<T>, counts: map<T, int>, table: map<T, seq<T>>) {
    Covers(nodes, pairs) && Tables(pairs, nodes, {}, counts, table)
  }

  /** The levels so far are those of the pairs, and the tables follow. */
  ghost predicate RightSoFar<T(!new)>(pairs: seq<(T, T)>, nodes: set<T>, levels: seq<seq<T>>, counts: map<T, int>,
                                      table: map<T, seq<T>>) {
    (forall k :: 0 <= k < |levels| ==> Lists(Edges(pairs), nodes, k, levels[k]))
    && Fits(pairs, nodes, |levels|, counts, table)
  }

  lemma RightMore<T(!new)>(pairs: seq<(T, T)>, nodes: set<T>, levels: seq<seq<T>>, counts: map<T, int>,
                           table: map<T, seq<T>>, level: seq<T>, after: map<T, int>, children: map<T, seq<T>>)
    requires RightSoFar(pairs, nodes, levels, counts, table)
    requires Lists(Edges(pairs), nodes, |levels|, level) && Fits(pairs, nodes, |levels| + 1, after, children)
    ensures RightSoFar(pairs, nodes, levels + [level], after, children)
  {
  }

  /** One turn with the list of the levels yielded; right tells whether the
      tables belong to the pairs. */
  method Advance<T(==,!new)>(ghost pairs: seq<(T, T)>, ghost nodes: set<T>, ghost keys: set<T>,
                             ghost original: map<T, seq<T>>, ghost right: bool,
                             levels: seq<seq<T>>, counts: map<T, int>, table: map<T, seq<T>>)
    returns (goesOn: bool, ok: bool, more: seq<seq<T>>, numParents: map<T, int>, children: map<T, seq<T>>)
    requires Yielded(keys, original, levels, counts.Keys, table)
    requires right ==> RightSoFar(pairs, nodes, levels, counts, table)
    ensures !goesOn ==> more == levels && numParents == counts && children == table
                        && forall x :: x in counts ==> counts[x] != 0
    ensures goesOn ==> more != [] && more[..|more| - 1] == levels && Divides(keys, more)
    ensures goesOn ==> (ok <==> AllDeletable(keys, original, more))
    ensures goesOn && ok ==> Yielded(keys, original, more, numParents.Keys, children) && numParents.Keys < counts.Keys
    ensures goesOn && right ==> ok && RightSoFar(pairs, nodes, more, numParents, children)
  {
    var level;
    ok, level, numParents, children := Turn(pairs, nodes, |levels|, counts, table);
    goesOn, more := level != [], levels;
    if goesOn {
      assert level[0] in Range(level) && Range(level) <= counts.Keys;
      more := levels + [level];
      assert more[..|more| - 1] == levels;
      YieldMore(keys, original, levels, counts.Keys, table, level);
      if right {
        RightMore(pairs, nodes, levels, counts, table, level, numParents, children);
      }
    }
  }

  /** The generator over any two tables.  A key is in one level at most.  A
      KeyError comes exactly when the levels yielded cannot be deleted, because
      of the last one; otherwise the end tells what has become of the other
      keys.  If the tables belong to some pair list over the nodes, the levels
      and the end are those of the pairs. */
  method Core<T(==,!new)>(ghost pairs: seq<(T, T)>, ghost nodes: set<T>, counts: map<T, int>, table: map<T, seq<T>>)
    returns (levels: seq<seq<T>>, end: End<T>)
    ensures Divides(counts.Keys, levels)
    ensures end.KeyError? <==> !AllDeletable(counts.Keys, table, levels)
    ensures end.KeyError? ==> levels != [] && AllDeletable(counts.Keys, table, levels[..|levels| - 1])
    ensures end.Stop? ==> Range(Flat(levels)) == counts.Keys
    ensures end.CycleError? ==> end.numParents.Keys == counts.Keys - Range(Flat(levels)) != {}
                                && forall x :: x in end.numParents ==> end.numParents[x] != 0
    ensures TablesOf(pairs, nodes, counts, table) ==>
              LevelsOf(Edges(pairs), nodes, levels) && RightEnd(pairs, nodes, end)
  {
    levels := [];
    var numParents, children := counts, table;
    ghost var right := TablesOf(pairs, nodes, counts, table);
    NothingBelowZero(Edges(pairs), nodes);
    NothingYielded(counts.Keys, table);
    while true
      invariant Yielded(counts.Keys, table, levels, numParents.Keys, children)
      invariant right ==> RightSoFar(pairs, nodes, levels, numParents, children)
      decreases numParents.Keys
    {
      var goesOn, ok;
      goesOn, ok, levels, numParents, children :=
        Advance(pairs, nodes, counts.Keys, table, right, levels, numParents, children);
      if !goesOn {
        break;
      }
      if !ok {
        return levels, KeyError;
      }
    }
    if right {
      NoMoreLevels(pairs, nodes, |levels|);
    }
    end := if numParents.Keys != {} then End.CycleError(numParents, children) else Stop;
  }

  /** Stop exactly without a cycle; otherwise the error has the cyclic part. */
  ghost predicate RightEnd<T(!new)>(pairs: seq<(T, T)>, nodes: set<T>, end: End<T>) {
    var rest := CyclicPart(Edges(pairs), nodes);
    match end
    case Stop => rest == {}
    case CycleError(counts, table) =>
      rest != {} && counts.Keys == rest && Tables(pairs, nodes, nodes - rest, counts, table)
    case KeyError => false
  }

  lemma NothingBelowZero<T(!new)>(edges: set<(T, T)>, nodes: set<T>)
    ensures Below(edges, nodes, 0) == {}
  {
    forall x | x in nodes ensures HasChain(edges, x, 0) {
      ChainZero(edges, x);
    }
  }

  lemma LevelIsReady<T(!new)>(pairs: seq<(T, T)>, nodes: set<T>, k: nat, level: seq<T>)
    requires Covers(nodes, pairs)
    requires Range(level) == set x | x in nodes - Below(Edges(pairs), nodes, k)
                                     && Pending(pairs, Below(Edges(pairs), nodes, k), x) == 0
    ensures Ready(pairs, Below(Edges(pairs), nodes, k), Range(level))
  {
    var done := Below(Edges(pairs), nodes, k);
    forall p, c | HasEdge(Edges(pairs), p, c) && c in done + Range(level) ensures p in done {
      EdgeEnds(pairs, p, c);
      if c in done {
        BelowClosed(Edges(pairs), nodes, k, p, c);
      } else {
        PendingZero(pairs, done, c);
      }
    }
  }

  /** When a level is empty, what is left is exactly the cyclic part, and no
      later level has an element either. */
  lemma NoMoreLevels<T(!new)>(pairs: seq<(T, T)>, nodes: set<T>, k: nat)
    requires Covers(nodes, pairs)
    requires forall x :: x in nodes - Below(Edges(pairs), nodes, k) ==>
                           Pending(pairs, Below(Edges(pairs), nodes, k), x) != 0
    ensures nodes - Below(Edges(pairs), nodes, k) == CyclicPart(Edges(pairs), nodes)
    ensures Below(Edges(pairs), nodes, k) == nodes - CyclicPart(Edges(pairs), nodes)
    ensures forall m: nat :: m >= k ==> LevelSet(Edges(pairs), nodes, m) == {}
  {
    var edges, done := Edges(pairs), Below(Edges(pairs), nodes, k);
    LeftoverHasParents(pairs, nodes, done);
    forall x | x in nodes ensures x !in done <==> FromCycle(edges, x) {
      if x !in done {
        LeftoverFromCycle(edges, nodes - done, x);
      } else if FromCycle(edges, x) {
        FromCycleChains(edges, x, k);
      }
    }
    forall m: nat, x | m >= k && x in nodes ensures !LongestChain(edges, x, m) {
      if x in done {
        if HasChain(edges, x, m) {
          ChainShorter(edges, x, m, k);
        }
      } else {
        FromCycleChains(edges, x, m + 1);
      }
    }
  }

  /** topsort_levels: build the tables, then run the generator. */
  method Levels<T(==,!new)>(pairs: seq<(T, T)>) returns (levels: seq<seq<T>>, end: End<T>)
    ensures LevelsOf(Edges(pairs), Elements(pairs), levels)
    ensures (end.Stop? <==> Acyclic(Edges(pairs))) && !end.KeyError?
    ensures end.CycleError? ==> end.numParents.Keys == CyclicPart(Edges(pairs), Elements(pairs))
  {
    var numParents, children := BuildTables(pairs);
    levels, end := Core(pairs, Elements(pairs), numParents, children);
    WithinElements(pairs, Elements(pairs));
    AcyclicIff(Edges(pairs), Elements(pairs));
  }

  /** More ancestors in a row than there are nodes: some node repeats. */
  lemma ManyAncestors<T(!new)>(edges: set<(T, T)>, nodes: set<T>, x: T, k: nat)
    requires EdgesWithin(edges, nodes) && HasChain(edges, x, k) && k > |nodes|
    ensures FromCycle(edges, x)
  {
    var w :| ChainOf(edges, x, k, w);
    forall y | y in w[..k] ensures y in nodes {
      var i :| 0 <= i < k && w[i] == y;
      assert StepAt(edges, w, i);
    }
    Pigeonhole(w[..k], nodes);
    var i: nat, j: nat :| i < j < k && w[..k][i] == w[..k][j];
    RepeatFromCycle(edges, w, i, j);
  }

  lemma {:induction false} LongestBelow<T(!new)>(edges: set<(T, T)>, x: T, k: nat) returns (m: nat)
    requires !HasChain(edges, x, k)
    ensures m < k && LongestChain(edges, x, m)
  {
    ChainZero(edges, x);
    if HasChain(edges, x, k - 1) {
      m := k - 1;
      LongestIff(edges, x, m);
    } else {
      m := LongestBelow(edges, x, k - 1);
    }
  }

  /** Every element is in exactly one yielded level, or reachable from a cycle
      and in none. */
  lemma LevelsPartition<T(!new)>(pairs: seq<(T, T)>, levels: seq<seq<T>>, x: T)
    requires LevelsOf(Edges(pairs), Elements(pairs), levels) && x in Elements(pairs)
    ensures FromCycle(Edges(pairs), x) <==> forall k :: 0 <= k < |levels| ==> x !in levels[k]
    ensures forall i, j :: 0 <= i < j < |levels| ==> x !in levels[i] || x !in levels[j]
  {
    var edges, nodes := Edges(pairs), Elements(pairs);
    assert forall k :: 0 <= k < |levels| ==> (x in levels[k] <==> x in LevelSet(edges, nodes, k)) by {
      assert forall k :: 0 <= k < |levels| ==> (x in levels[k] <==> x in Range(levels[k]));
    }
    if FromCycle(edges, x) {
      forall k | 0 <= k < |levels| ensures x !in levels[k] {
        FromCycleChains(edges, x, k + 1);
      }
    } else {
      WithinElements(pairs, nodes);
      if HasChain(edges, x, |nodes| + 1) {
        ManyAncestors(edges, nodes, x, |nodes| + 1);
      }
      var m := LongestBelow(edges, x, |nodes| + 1);
      assert x in LevelSet(edges, nodes, m);
    }
  }
}
