/** How topsort and find_cycles of bindings/python/topsort.py fit together:
    find_cycles is there to debug a CycleError. */
module CycleDebugging {
  import opened Graphs
  import Topsort
  import FindCycles

  /** The children table that a CycleError carries has lost finished parents
      only: its edges are those of the pairs whose parent is left over. */
  lemma TableEdges<T(!new)>(pairs: seq<(T, T)>, done: set<T>, children: map<T, seq<T>>, p: T, c: T)
    requires Topsort.ChildTable(pairs, done, children)
    ensures HasEdge(FindCycles.Edges(children), p, c) <==> HasEdge(Topsort.Edges(pairs), p, c) && p !in done
  {
    Topsort.ChildListIs(pairs, p, c);
  }

  /** find_cycles run on the children table of a CycleError sees exactly the
      simple cycles of the original pairs. */
  lemma ErrorKeepsCycles<T(!new)>(pairs: seq<(T, T)>, error: Topsort.Result<T>, c: seq<T>)
    requires error.CycleError?
    requires Range(error.answer) == Topsort.Elements(pairs) - CyclicPart(Topsort.Edges(pairs), Topsort.Elements(pairs))
    requires Topsort.ChildTable(pairs, Range(error.answer), error.children)
    ensures FindCycles.SimpleCycle(Topsort.Edges(pairs), c)
            <==> FindCycles.SimpleCycle(FindCycles.Edges(error.children), c)
  {
    var edges, left := Topsort.Edges(pairs), FindCycles.Edges(error.children);
    forall p, d ensures HasEdge(left, p, d) <==> HasEdge(edges, p, d) && p !in Range(error.answer) {
      TableEdges(pairs, Range(error.answer), error.children, p, d);
    }
    if FindCycles.SimpleCycle(edges, c) {
      forall x | x in c ensures x !in Range(error.answer) {
        FindCycles.CycleNode(edges, c, x);
        assert WalkFromCycle(edges, x, [x]);
      }
      forall i: nat | i + 1 < |c| ensures StepAt(left, c, i) {
        assert StepAt(edges, c, i);
      }
    } else if FindCycles.SimpleCycle(left, c) {
      forall i: nat | i + 1 < |c| ensures StepAt(edges, c, i) {
        assert StepAt(left, c, i);
      }
    }
  }

  /** Sorting and, on failure, listing the cycles: at least one cycle is found
      exactly when the sort fails, and every simple cycle is found once. */
  method SortOrExplain<T(==,!new)>(pairs: seq<(T, T)>) returns (r: Topsort.Result<T>, cycles: seq<seq<T>>)
    ensures r.Sorted? <==> Acyclic(Topsort.Edges(pairs))
    ensures r.CycleError? <==> cycles != []
    ensures FindCycles.GoodCycles(Topsort.Edges(pairs), cycles)
    ensures forall c :: FindCycles.SimpleCycle(Topsort.Edges(pairs), c) ==> FindCycles.Reported(cycles, c)
  {
    r := Topsort.Sort(pairs);
    cycles := [];
    ghost var edges := Topsort.Edges(pairs);
    if r.CycleError? {
      cycles := FindCycles.FindCycles(r.children);
      forall c ensures FindCycles.SimpleCycle(edges, c) <==> FindCycles.SimpleCycle(FindCycles.Edges(r.children), c) {
        ErrorKeepsCycles(pairs, r, c);
      }
    } else {
      forall c ensures !FindCycles.SimpleCycle(edges, c) {
        if FindCycles.SimpleCycle(edges, c) {
          FindCycles.CycleNode(edges, c, c[0]);
        }
      }
    }
    FindCycles.SilentIffAcyclic(edges, cycles);
  }
}
