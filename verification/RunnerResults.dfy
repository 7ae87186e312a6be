/** What the collected results of the runner of test.py say about the run that
    led to them: which tests were run to which return code, skipped or dropped,
    and in which order the queues have passed the jobs on. */
module RunnerResults {
  import opened Basics
  import opened Runner
  import opened RunnerSafety
  import opened RunnerProgress
  import opened RunnerTally

  // ---------- results are what has happened ----------

  datatype Verdict = RanTo(rc: int) | PassedOver | Dropped

  /** What a job on its way back claims. */
  function VerdictOf(j: Job): Verdict {
    if j.isBreak then Dropped else if j.isSkip then PassedOver else RanTo(j.returncode)
  }

  /** What a step does to the job in a worker's hands: a test under an interrupt
      is dropped, a test to be skipped is passed over, any other one is run to
      the return code that the run gives. */
  function EventOf(c: Config, s: State, a: Action): Option<(Origin, Verdict)>
    requires Enabled(c, s, a)
  {
    match a
    case TestExit(w) =>
      var o := s.workers[w].job.origin;
      if s.threadExit then Some((o, Dropped))
      else if o.Test? && o.index < |c.skips| && c.skips[o.index] then Some((o, PassedOver))
      else None
    case Finish(w, rc) => Some((s.workers[w].job.origin, RanTo(rc)))
    case _ => None
  }

  ghost function Events(c: Config, s: State, run: seq<Action>): seq<(Origin, Verdict)>
    requires IsRun(c, s, run)
    decreases |run|
  {
    if run == [] then [] else
    var rest := Events(c, Next(c, s, run[0]), run[1..]);
    match EventOf(c, s, run[0])
    case Some(e) => [e] + rest
    case None => rest
  }

  predicate Claims(j: Job, o: Origin, v: Verdict) {
    j.origin == o && VerdictOf(j) == v
  }

  ghost function Claimed(js: seq<Job>, o: Origin, v: Verdict): nat {
    if js == [] then 0 else Claimed(js[..|js| - 1], o, v) + if Claims(js[|js| - 1], o, v) then 1 else 0
  }

  function Returns(o: Origin, v: Verdict): Worker -> nat {
    (w: Worker) => if w.Returning? && Claims(w.job, o, v) then 1 else 0
  }

  /** How many jobs on their way back claim v of o. */
  ghost function Results(s: State, o: Origin, v: Verdict): nat {
    Sum(s.workers, Returns(o, v)) + Claimed(s.output, o, v) + Claimed(s.collected, o, v)
  }

  lemma ClaimedSnoc(js: seq<Job>, j: Job, o: Origin, v: Verdict)
    ensures Claimed(js + [j], o, v) == Claimed(js, o, v) + if Claims(j, o, v) then 1 else 0
  {
    assert (js + [j])[..|js|] == js;
  }

  lemma {:induction false} ClaimedHead(js: seq<Job>, o: Origin, v: Verdict)
    requires js != []
    ensures Claimed(js, o, v) == Claimed(js[1..], o, v) + if Claims(js[0], o, v) then 1 else 0
  {
    var n := |js| - 1;
    if n > 0 {
      ClaimedHead(js[..n], o, v);
      assert js[1..][..n - 1] == js[..n][1..];
    }
  }

  /** Every step adds the result of its event, and nothing else. */
  lemma ResultsNext(c: Config, s: State, a: Action, o: Origin, v: Verdict)
    requires JobsOk(c, s) && Enabled(c, s, a)
    ensures Results(Next(c, s, a), o, v) == Results(s, o, v) + if EventOf(c, s, a) == Some((o, v)) then 1 else 0
  {
    var t := Next(c, s, a);
    match a
    case Get(w) => SumUpdate(s.workers, w, t.workers[w], Returns(o, v));
    case TestBreak(w) => SumUpdate(s.workers, w, t.workers[w], Returns(o, v));
    case TestExit(w) =>
      assert WorkerOk(c, s.threadExit, s.workers[w]);
      SumUpdate(s.workers, w, t.workers[w], Returns(o, v));
    case Finish(w, rc) =>
      assert WorkerOk(c, s.threadExit, s.workers[w]);
      SumUpdate(s.workers, w, t.workers[w], Returns(o, v));
    case Put(w) =>
      SumUpdate(s.workers, w, t.workers[w], Returns(o, v));
      ClaimedSnoc(s.output, s.workers[w].job, o, v);
    case Collect =>
      ClaimedHead(s.output, o, v);
      ClaimedSnoc(s.collected, s.output[0], o, v);
    case _ =>
  }

  lemma {:induction false} ResultsAfter(c: Config, s: State, run: seq<Action>, o: Origin, v: Verdict)
    requires Inv(c, s) && IsRun(c, s, run)
    ensures Results(After(c, s, run), o, v) == Results(s, o, v) + multiset(Events(c, s, run))[(o, v)]
    decreases |run|
  {
    if run != [] {
      ResultsNext(c, s, run[0], o, v);
      InvNext(c, s, run[0]);
      ResultsAfter(c, Next(c, s, run[0]), run[1..], o, v);
    }
  }

  lemma {:induction false} ClaimedTwo(js: seq<Job>, o: Origin, v: Verdict, u: Verdict)
    requires u != v
    ensures Claimed(js, o, v) + Claimed(js, o, u) <= Count(js, o)
  {
    if js != [] {
      ClaimedTwo(js[..|js| - 1], o, v, u);
    }
  }

  lemma {:induction false} ReturnsTwo(ws: seq<Worker>, o: Origin, v: Verdict, u: Verdict)
    requires u != v
    ensures Sum(ws, Returns(o, v)) + Sum(ws, Returns(o, u)) <= Sum(ws, Holding(o))
  {
    if ws != [] {
      ReturnsTwo(ws[..|ws| - 1], o, v, u);
    }
  }

  /** There is at most one result for a test. */
  lemma OneResult(s: State, t: nat, v: Verdict, u: Verdict)
    requires Conserved(s) && u != v
    ensures Results(s, Test(t), v) + Results(s, Test(t), u) <= 1
  {
    var o := Test(t);
    ReturnsTwo(s.workers, o, v, u);
    ClaimedTwo(s.output, o, v, u);
    ClaimedTwo(s.collected, o, v, u);
    assert Places(s, o) == Made(s, o) <= 1;
  }

  lemma {:induction false} ClaimedFinds(js: seq<Job>, o: Origin, v: Verdict)
    ensures Claimed(js, o, v) > 0 <==> exists i :: 0 <= i < |js| && Claims(js[i], o, v)
  {
    if js != [] {
      var n := |js| - 1;
      ClaimedFinds(js[..n], o, v);
      assert forall i :: 0 <= i < n ==> js[i] == js[..n][i];
    }
  }

  lemma RunStart(c: Config, run: seq<Action>, o: Origin, v: Verdict)
    requires IsRun(c, Init(c), run)
    ensures Inv(c, After(c, Init(c), run))
    ensures Results(After(c, Init(c), run), o, v) == multiset(Events(c, Init(c), run))[(o, v)]
  {
    InvInit(c);
    InvAfter(c, Init(c), run);
    AllIdle(Init(c).workers, Returns(o, v));
    ResultsAfter(c, Init(c), run, o, v);
  }

  /** Every collected result tells the one thing that has happened to its test
      in the run: dropped, passed over, or run to this return code. */
  lemma ResultsAreEvents(c: Config, run: seq<Action>, i: nat)
    requires IsRun(c, Init(c), run) && i < |After(c, Init(c), run).collected|
    ensures var j, evs := After(c, Init(c), run).collected[i], Events(c, Init(c), run);
      && j.origin.Test? && multiset(evs)[(j.origin, VerdictOf(j))] == 1
      && forall v :: (j.origin, v) in evs ==> v == VerdictOf(j)
  {
    var s, evs := After(c, Init(c), run), Events(c, Init(c), run);
    var j := s.collected[i];
    var o, v := j.origin, VerdictOf(j);
    RunStart(c, run, o, v);
    assert Treated(c, s.threadExit, j);
    ClaimedFinds(s.collected, o, v);
    assert Claims(j, o, v);
    OneResult(s, o.index, v, if v.Dropped? then PassedOver else Dropped);
    forall u | (o, u) in evs ensures u == v {
      if u != v {
        RunStart(c, run, o, u);
        OneResult(s, o.index, v, u);
      }
    }
  }

  // ---------- the accounts of a run ----------

  /** The tests to which v has happened. */
  ghost function TestsWith(c: Config, evs: seq<(Origin, Verdict)>, v: Verdict): set<nat> {
    set t: nat | t < |c.skips| && (Test(t), v) in evs
  }

  ghost predicate HasStatus(js: seq<Job>, t: nat, st: Status) {
    exists i :: 0 <= i < |js| && js[i].origin == Test(t) && StatusOf(js[i]) == st
  }

  ghost function StatusSet(js: seq<Job>, n: nat, st: Status): set<nat> {
    set t: nat | t < n && HasStatus(js, t, st)
  }

  lemma HasStatusSnoc(js: seq<Job>, j: Job, t: nat, st: Status)
    ensures HasStatus(js + [j], t, st) <==> HasStatus(js, t, st) || (j.origin == Test(t) && StatusOf(j) == st)
  {
    var all := js + [j];
    assert all[|js|] == j && forall i :: 0 <= i < |js| ==> all[i] == js[i];
  }

  lemma StatusSetSnoc(js: seq<Job>, j: Job, n: nat, st: Status)
    requires j.origin.Test? && j.origin.index < n && Count(js, j.origin) == 0
    ensures |StatusSet(js + [j], n, st)| == |StatusSet(js, n, st)| + if StatusOf(j) == st then 1 else 0
  {
    var k, former := j.origin.index, StatusSet(js, n, st);
    CountFinds(js, Test(k));
    assert !HasStatus(js, k, st);
    forall t: nat {
      HasStatusSnoc(js, j, t, st);
    }
    assert StatusSet(js + [j], n, st) == former + if StatusOf(j) == st then {k} else {};
    assert k !in former;
  }

  ghost predicate OncePerTest(js: seq<Job>, n: nat) {
    && (forall i :: 0 <= i < |js| ==> js[i].origin.Test? && js[i].origin.index < n)
    && forall t: nat :: Count(js, Test(t)) <= 1
  }

  lemma OnceSnoc(js: seq<Job>, j: Job, n: nat)
    requires OncePerTest(js + [j], n)
    ensures OncePerTest(js, n) && j.origin.Test? && j.origin.index < n && Count(js, j.origin) == 0
  {
    var all := js + [j];
    assert all[|js|] == j && forall i :: 0 <= i < |js| ==> all[i] == js[i];
    forall t: nat ensures Count(js, Test(t)) <= 1 && (j.origin == Test(t) ==> Count(js, Test(t)) == 0) {
      CountSnoc(js, j, Test(t));
      assert Count(all, Test(t)) <= 1;
    }
  }

  lemma {:induction false} WithIsSet(js: seq<Job>, n: nat, st: Status)
    requires OncePerTest(js, n)
    ensures |With(js, st)| == |StatusSet(js, n, st)|
  {
    if js == [] {
      assert StatusSet(js, n, st) == {};
    } else {
      var front, j := js[..|js| - 1], js[|js| - 1];
      assert js == front + [j];
      OnceSnoc(front, j, n);
      WithIsSet(front, n, st);
      StatusSetSnoc(front, j, n, st);
    }
  }

  /** In a final state a test has a result exactly if that has happened to it. */
  lemma FinalResults(c: Config, run: seq<Action>, t: nat, v: Verdict)
    requires IsRun(c, Init(c), run) && Finished(c, After(c, Init(c), run)) && t < |c.skips|
    ensures var s := After(c, Init(c), run);
      (Test(t), v) in Events(c, Init(c), run) <==>
      exists i :: 0 <= i < |s.collected| && Claims(s.collected[i], Test(t), v)
  {
    var s := After(c, Init(c), run);
    RunStart(c, run, Test(t), v);
    FinishedIsComplete(c, s);
    ExitedReturnNone(s.workers, Test(t), v);
    ClaimedFinds(s.collected, Test(t), v);
  }

  lemma {:induction false} ExitedReturnNone(ws: seq<Worker>, o: Origin, v: Verdict)
    requires forall w :: 0 <= w < |ws| ==> ws[w].Exited?
    ensures Sum(ws, Returns(o, v)) == 0
  {
    if ws != [] {
      ExitedReturnNone(ws[..|ws| - 1], o, v);
    }
  }

  lemma CountIs(c: Config, run: seq<Action>, st: Status, v: Verdict)
    requires IsRun(c, Init(c), run) && Finished(c, After(c, Init(c), run))
    requires forall j :: StatusOf(j) == st <==> VerdictOf(j) == v
    ensures |With(After(c, Init(c), run).collected, st)| == |TestsWith(c, Events(c, Init(c), run), v)|
  {
    var s, n := After(c, Init(c), run), |c.skips|;
    RunStart(c, run, Sentinel, v);
    FinishedIsComplete(c, s);
    forall t: nat ensures Count(s.collected, Test(t)) <= 1 {
      assert Places(s, Test(t)) == Made(s, Test(t));
    }
    forall i | 0 <= i < |s.collected| ensures s.collected[i].origin.Test? && s.collected[i].origin.index < n {
      assert Treated(c, s.threadExit, s.collected[i]);
    }
    assert OncePerTest(s.collected, n);
    WithIsSet(s.collected, n, st);
    forall t: nat | t < n
      ensures HasStatus(s.collected, t, st) <==> (Test(t), v) in Events(c, Init(c), run) {
      FinalResults(c, run, t, v);
      assert forall i :: 0 <= i < |s.collected| ==>
        (Claims(s.collected[i], Test(t), v) <==> s.collected[i].origin == Test(t) && StatusOf(s.collected[i]) == st);
    }
    assert StatusSet(s.collected, n, st) == TestsWith(c, Events(c, Init(c), run), v);
  }

  lemma GoodIs(c: Config, run: seq<Action>, k: nat)
    requires IsRun(c, Init(c), run) && Finished(c, After(c, Init(c), run)) && k < |c.skips|
    ensures var s, evs := After(c, Init(c), run), Events(c, Init(c), run);
      (exists i :: 0 <= i < |s.collected| && s.collected[i].origin == Test(k) && Good(s.collected[i]))
      <==> (Test(k), PassedOver) in evs || (Test(k), RanTo(0)) in evs
  {
    var s := After(c, Init(c), run);
    RunStart(c, run, Sentinel, Dropped);
    FinalResults(c, run, k, PassedOver);
    FinalResults(c, run, k, RanTo(0));
    forall i | 0 <= i < |s.collected|
      ensures s.collected[i].origin == Test(k) && Good(s.collected[i])
              <==> Claims(s.collected[i], Test(k), PassedOver) || Claims(s.collected[i], Test(k), RanTo(0)) {
      assert Treated(c, s.threadExit, s.collected[i]);
    }
  }

  /** The counters of a finished run count what has happened in it: tests run to
      return code 0, 1, 2, tests passed over, tests dropped; all other tests have
      crashed. */
  lemma RunAccounting(c: Config, run: seq<Action>, l: Labels, t: Tally)
    requires IsRun(c, Init(c), run) && Finished(c, After(c, Init(c), run))
    requires Counts(l, After(c, Init(c), run).collected, t)
    ensures var evs := Events(c, Init(c), run);
      && t.passed == |TestsWith(c, evs, RanTo(0))| && t.failed == |TestsWith(c, evs, RanTo(1))|
      && t.valgrind == |TestsWith(c, evs, RanTo(2))| && t.skipped == |TestsWith(c, evs, PassedOver)|
      && t.passed + t.failed + t.valgrind + t.skipped + t.crashed + |TestsWith(c, evs, Dropped)| == |c.skips|
  {
    CountIs(c, run, Passed, RanTo(0));
    CountIs(c, run, Failed, RanTo(1));
    CountIs(c, run, Valgrind, RanTo(2));
    CountIs(c, run, Skipped, PassedOver);
    CountIs(c, run, Interrupted, Dropped);
    FinalAccounting(c, After(c, Init(c), run), l, t);
  }

  /** The exit status is 0 exactly when every test has been passed over or run
      to return code 0. */
  lemma RunStatus(c: Config, run: seq<Action>, l: Labels, t: Tally)
    requires IsRun(c, Init(c), run) && Finished(c, After(c, Init(c), run))
    requires Counts(l, After(c, Init(c), run).collected, t)
    ensures var evs := Events(c, Init(c), run);
      ExitStatus(t, |c.skips|) == 0 <==>
      forall k: nat :: k < |c.skips| ==> (Test(k), PassedOver) in evs || (Test(k), RanTo(0)) in evs
  {
    FinalAccounting(c, After(c, Init(c), run), l, t);
    forall k: nat | k < |c.skips| {
      GoodIs(c, run, k);
    }
  }

  // ---------- first in, first out ----------

  /** The jobs that workers have taken, and those that they have put back. */
  ghost function Taken(c: Config, s: State, run: seq<Action>): seq<Job>
    requires IsRun(c, s, run)
    decreases |run|
  {
    if run == [] then [] else
    (if run[0].Get? then [s.input[0]] else []) + Taken(c, Next(c, s, run[0]), run[1..])
  }

  ghost function PutBack(c: Config, s: State, run: seq<Action>): seq<Job>
    requires IsRun(c, s, run)
    decreases |run|
  {
    if run == [] then [] else
    (if run[0].Put? then [s.workers[run[0].w].job] else []) + PutBack(c, Next(c, s, run[0]), run[1..])
  }

  /** All that main has put on the input queue so far. */
  function Queued(c: Config, s: State): seq<Job>
    requires s.dispatched <= |c.skips|
  {
    seq(s.dispatched, t requires 0 <= t < s.dispatched => NewJob(c, t)) + seq(s.sent, i => NewSentinel())
  }

  lemma QueuedNext(c: Config, s: State, a: Action)
    requires CountersOk(c, s) && Enabled(c, s, a)
    ensures CountersOk(c, Next(c, s, a))
    ensures Queued(c, Next(c, s, a)) == Queued(c, s) + if a.Dispatch? then [NewJob(c, s.dispatched)]
                                                       else if a.Send? then [NewSentinel()] else []
  {
    CountersOkNext(c, s, a);
  }

  lemma OneStepIn(c: Config, s: State, a: Action, before: seq<Job>)
    requires CountersOk(c, s) && Enabled(c, s, a) && before + s.input == Queued(c, s)
    ensures var t, more := Next(c, s, a), if a.Get? then [s.input[0]] else [];
      CountersOk(c, t) && before + more + t.input == Queued(c, t)
  {
    QueuedNext(c, s, a);
    var t := Next(c, s, a);
    if a.Get? {
      assert s.input == [s.input[0]] + t.input;
      Associate(before, [s.input[0]], t.input);
    } else {
      assert before + [] == before;
      var added := if a.Dispatch? then [NewJob(c, s.dispatched)] else if a.Send? then [NewSentinel()] else [];
      assert t.input == s.input + added;
      Associate(before, s.input, added);
    }
  }

  /** Workers take the jobs in the order in which main has queued them: the tests
      in their order, then the sentinels. */
  lemma {:induction false} InputInOrder(c: Config, s: State, run: seq<Action>, before: seq<Job>)
    requires CountersOk(c, s) && IsRun(c, s, run) && before + s.input == Queued(c, s)
    ensures CountersOk(c, After(c, s, run))
    ensures before + Taken(c, s, run) + After(c, s, run).input == Queued(c, After(c, s, run))
    decreases |run|
  {
    if run == [] {
      assert before + [] == before;
    } else {
      var a, t := run[0], Next(c, s, run[0]);
      var more := if a.Get? then [s.input[0]] else [];
      OneStepIn(c, s, a, before);
      InputInOrder(c, t, run[1..], before + more);
      Associate(before, more, Taken(c, t, run[1..]));
    }
  }

  /** Main collects the results in the order in which workers put them back. */
  lemma {:induction false} OutputInOrder(c: Config, s: State, run: seq<Action>)
    requires IsRun(c, s, run)
    ensures var e := After(c, s, run); e.collected + e.output == s.collected + s.output + PutBack(c, s, run)
    decreases |run|
  {
    if run != [] {
      var a, t := run[0], Next(c, s, run[0]);
      var more := if a.Put? then [s.workers[a.w].job] else [];
      assert t.collected + t.output == s.collected + s.output + more by {
        if a.Collect? {
          assert s.output == [s.output[0]] + t.output;
        }
      }
      OutputInOrder(c, t, run[1..]);
      assert PutBack(c, s, run) == more + PutBack(c, t, run[1..]);
    }
  }

  /** Both queues over a whole run. */
  lemma QueuesAreFifo(c: Config, run: seq<Action>)
    requires IsRun(c, Init(c), run)
    ensures var s := After(c, Init(c), run);
      && s.dispatched <= |c.skips|
      && Taken(c, Init(c), run) + s.input == Queued(c, s)
      && s.collected + s.output == PutBack(c, Init(c), run)
  {
    InvInit(c);
    assert [] + Init(c).input == Queued(c, Init(c));
    InputInOrder(c, Init(c), run, []);
    OutputInOrder(c, Init(c), run);
    assert [] + Taken(c, Init(c), run) == Taken(c, Init(c), run);
  }
}
