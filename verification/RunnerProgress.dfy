/** The runner neither deadlocks nor runs on for ever, whatever the
    interleaving and whenever the interrupt comes. */
module RunnerProgress {
  import opened Runner
  import opened RunnerSafety

  // ---------- every run is finite ----------

  /** Steps that a worker still has to take for the job in its hands, counting
      the one by which the main thread collects it. */
  function Effort(w: Worker): nat {
    match w
    case Idle => 0
    case Got(_) => 5
    case Past(_) => 4
    case Running(_) => 3
    case Returning(_) => 2
    case Exited => 0
  }

  ghost function Measure(c: Config, s: State): nat
    requires CountersOk(c, s)
  {
    7 * (|c.skips| - s.dispatched) + 7 * (c.processors - s.sent) + 6 * |s.input| + Sum(s.workers, Effort)
    + |s.output| + (c.processors - s.joined) + if s.threadExit then 0 else 1
  }

  lemma MeasureDrops(c: Config, s: State, a: Action)
    requires CountersOk(c, s) && Enabled(c, s, a)
    ensures CountersOk(c, Next(c, s, a)) && Measure(c, Next(c, s, a)) < Measure(c, s)
  {
    CountersOkNext(c, s, a);
    if !IsMain(a) {
      SumUpdate(s.workers, a.w, Next(c, s, a).workers[a.w], Effort);
    }
  }

  lemma {:induction false} RunBounded(c: Config, s: State, run: seq<Action>)
    requires Inv(c, s) && IsRun(c, s, run)
    ensures |run| <= Measure(c, s)
    decreases |run|
  {
    if run != [] {
      InvNext(c, s, run[0]);
      MeasureDrops(c, s, run[0]);
      RunBounded(c, Next(c, s, run[0]), run[1..]);
    }
  }

  /** Every run of the runner takes at most seven steps per test, eight per
      worker, and one for the signal. */
  lemma Terminates(c: Config, run: seq<Action>)
    requires IsRun(c, Init(c), run)
    ensures |run| <= 7 * |c.skips| + 8 * c.processors + 1
  {
    InvInit(c);
    AllIdle(Init(c).workers, Effort);
    RunBounded(c, Init(c), run);
  }

  // ---------- no run gets stuck early ----------

  lemma {:induction false} SumAtMost(ws: seq<Worker>, f: Worker -> nat)
    requires forall w :: 0 <= w < |ws| ==> f(ws[w]) <= 1
    ensures Sum(ws, f) <= |ws|
    ensures Sum(ws, f) == |ws| <==> forall w :: 0 <= w < |ws| ==> f(ws[w]) == 1
  {
    if ws != [] {
      SumAtMost(ws[..|ws| - 1], f);
    }
  }

  lemma {:induction false} NoSentinels(js: seq<Job>)
    requires forall i :: 0 <= i < |js| ==> js[i].origin.Test?
    ensures Count(js, Sentinel) == 0
  {
    if js != [] {
      NoSentinels(js[..|js| - 1]);
    }
  }

  lemma {:induction false} OnlySentinels(js: seq<Job>)
    requires forall i :: 0 <= i < |js| ==> js[i].origin.Sentinel?
    ensures Count(js, Sentinel) == |js|
  {
    if js != [] {
      OnlySentinels(js[..|js| - 1]);
    }
  }

  ghost predicate AtRest(s: State) {
    forall w :: 0 <= w < |s.workers| ==> s.workers[w].Idle? || s.workers[w].Exited?
  }

  lemma StuckAtRest(c: Config, s: State)
    requires Stuck(c, s)
    ensures AtRest(s)
    ensures s.input == [] || forall w :: 0 <= w < |s.workers| ==> s.workers[w].Exited?
    ensures s.dispatched >= |c.skips|
  {
    forall w: nat | w < |s.workers|
      ensures s.workers[w].Idle? || s.workers[w].Exited?
      ensures s.workers[w].Idle? ==> s.input == [] {
      assert !Enabled(c, s, Get(w)) && !Enabled(c, s, TestBreak(w)) && !Enabled(c, s, TestExit(w));
      assert !Enabled(c, s, Finish(w, 0)) && !Enabled(c, s, Put(w));
    }
    assert !Enabled(c, s, Dispatch);
  }

  /** With a worker, a stuck state has no queued input: a sentinel in the queue
      would be one too many. */
  lemma StuckDrained(c: Config, s: State)
    requires Inv(c, s) && Stuck(c, s) && c.processors > 0
    ensures s.sent == c.processors && s.input == []
    ensures HeldBy(s.workers, Sentinel) == c.processors
    ensures forall w :: 0 <= w < |s.workers| ==> s.workers[w].Exited?
  {
    StuckAtRest(c, s);
    assert !Enabled(c, s, Send);
    NoSentinels(s.output);
    NoSentinels(s.collected);
    SumAtMost(s.workers, Holding(Sentinel));
    assert Places(s, Sentinel) == Made(s, Sentinel);
    if s.input != [] {
      assert TookSentinel(s.workers[0]);
      OnlySentinels(s.input);
    }
  }

  /** A stuck state of a runner with a worker is final. */
  lemma StuckIsFinished(c: Config, s: State)
    requires Inv(c, s) && Stuck(c, s) && (c.processors > 0 || c.skips == [])
    ensures Finished(c, s)
  {
    StuckAtRest(c, s);
    if c.processors > 0 {
      StuckDrained(c, s);
      SumAtMost(s.workers, Busy);
      assert !Enabled(c, s, Collect) && !Enabled(c, s, Join);
    }
  }

  /** What a final state looks like: both queues are empty, every worker has
      exited, and each test has been collected exactly once. */
  lemma FinishedIsComplete(c: Config, s: State)
    requires Inv(c, s) && Finished(c, s)
    ensures s.input == [] && s.output == []
    ensures forall w :: 0 <= w < |s.workers| ==> s.workers[w].Exited?
    ensures forall t: nat :: t < |c.skips| ==> Count(s.collected, Test(t)) == 1
  {
    SumAtMost(s.workers, Busy);
    forall t: nat | t < |c.skips| ensures Count(s.collected, Test(t)) == 1 {
      assert Places(s, Test(t)) == Made(s, Test(t));
      ExitedHoldNone(s.workers, t);
    }
  }

  lemma {:induction false} ExitedHoldNone(ws: seq<Worker>, t: nat)
    requires forall w :: 0 <= w < |ws| ==> ws[w].Exited?
    ensures HeldBy(ws, Test(t)) == 0
  {
    if ws != [] {
      ExitedHoldNone(ws[..|ws| - 1], t);
    }
  }

  // ---------- exactly when the runner can deadlock ----------

  lemma {:induction false} Extend(c: Config, s: State, run: seq<Action>, a: Action)
    requires IsRun(c, s, run) && Enabled(c, After(c, s, run), a)
    ensures IsRun(c, s, run + [a]) && After(c, s, run + [a]) == Next(c, After(c, s, run), a)
    decreases |run|
  {
    if run == [] {
      assert IsRun(c, Next(c, s, a), []);
      assert ([a])[1..] == [];
      assert run + [a] == [a];
    } else {
      Extend(c, Next(c, s, run[0]), run[1..], a);
      assert (run + [a])[1..] == run[1..] + [a];
    }
  }

  /** Every run can be continued until nothing but a signal can happen. */
  lemma {:induction false} RunToTheEnd(c: Config, run: seq<Action>) returns (full: seq<Action>)
    requires IsRun(c, Init(c), run)
    ensures IsRun(c, Init(c), full) && run <= full && Stuck(c, After(c, Init(c), full))
    decreases 7 * |c.skips| + 8 * c.processors + 1 - |run|
  {
    full := run;
    if !Stuck(c, After(c, Init(c), run)) {
      var a :| Enabled(c, After(c, Init(c), run), a) && !a.Interrupt?;
      Extend(c, Init(c), run, a);
      Terminates(c, run + [a]);
      full := RunToTheEnd(c, run + [a]);
    }
  }

  lemma {:induction false} NobodyWorks(c: Config, s: State, run: seq<Action>)
    requires s.workers == [] && s.output == [] && s.collected == [] && IsRun(c, s, run)
    ensures After(c, s, run).collected == []
    decreases |run|
  {
    if run != [] {
      NobodyWorks(c, Next(c, s, run[0]), run[1..]);
    }
  }

  /** The runner can always go on until it is finished exactly when it has a
      worker or nothing to do. */
  lemma DeadlockFreeIff(c: Config)
    ensures (forall s :: Reachable(c, s) && Stuck(c, s) ==> Finished(c, s)) <==> c.processors > 0 || c.skips == []
  {
    if c.processors > 0 || c.skips == [] {
      forall s | Reachable(c, s) && Stuck(c, s) ensures Finished(c, s) {
        InvReachable(c);
        StuckIsFinished(c, s);
      }
    } else {
      var run := RunToTheEnd(c, []);
      NobodyWorks(c, Init(c), run);
      assert Reachable(c, After(c, Init(c), run));
    }
  }
}
