/** Sentinels and interrupts: how the worker threads are shut down. */
module RunnerShutdown {
  import opened Runner
  import opened RunnerSafety
  import opened RunnerProgress

  /** Sentinels stop exactly the workers that take them: none reaches the
      output queue, no worker leaves while a test is queued, and an is_break
      mark that a worker tests is never one that an interrupt has set. */
  lemma SentinelsStopWorkers(c: Config, s: State)
    requires Reachable(c, s)
    ensures forall i :: 0 <= i < |s.output| ==> s.output[i].origin.Test?
    ensures forall w, i :: 0 <= w < |s.workers| && s.workers[w].Exited? && 0 <= i < |s.input| ==>
              s.input[i].origin.Sentinel?
    ensures forall w :: 0 <= w < |s.workers| && s.workers[w].Got? ==>
              (s.workers[w].job.isBreak <==> s.workers[w].job.origin.Sentinel?)
    ensures Count(s.input, Sentinel) + HeldBy(s.workers, Sentinel) == s.sent <= c.processors
  {
    InvReachable(c);
    NoSentinels(s.output);
    NoSentinels(s.collected);
    assert Places(s, Sentinel) == Made(s, Sentinel);
    forall w, i | 0 <= w < |s.workers| && s.workers[w].Exited? && 0 <= i < |s.input|
      ensures s.input[i].origin.Sentinel? {
      assert TookSentinel(s.workers[w]);
    }
    forall w | 0 <= w < |s.workers| && s.workers[w].Got?
      ensures s.workers[w].job.isBreak <==> s.workers[w].job.origin.Sentinel? {
      assert WorkerOk(c, s.threadExit, s.workers[w]);
    }
  }

  /** Test t has not passed the worker's look at thread_exit. */
  ghost predicate NotYetTested(s: State, t: nat) {
    && (forall w :: 0 <= w < |s.workers| && (s.workers[w].Running? || s.workers[w].Returning?) ==>
          s.workers[w].job.origin != Test(t))
    && (forall i :: 0 <= i < |s.output| ==> s.output[i].origin != Test(t))
    && (forall i :: 0 <= i < |s.collected| ==> s.collected[i].origin != Test(t))
  }

  ghost predicate Dropped(t: nat, j: Job) {
    j.origin == Test(t) ==> j.isBreak && !j.ran
  }

  /** The interrupt is set and t is not being run and has not been run. */
  ghost predicate NeverRun(s: State, t: nat) {
    && s.threadExit
    && (forall w :: 0 <= w < |s.workers| && s.workers[w].Running? ==> s.workers[w].job.origin != Test(t))
    && (forall w :: 0 <= w < |s.workers| && s.workers[w].Returning? ==> Dropped(t, s.workers[w].job))
    && (forall i :: 0 <= i < |s.output| ==> Dropped(t, s.output[i]))
    && (forall i :: 0 <= i < |s.collected| ==> Dropped(t, s.collected[i]))
  }

  lemma NeverRunNext(c: Config, s: State, a: Action, t: nat)
    requires JobsOk(c, s) && NeverRun(s, t) && Enabled(c, s, a)
    ensures NeverRun(Next(c, s, a), t)
  {
    if a.TestExit? {
      assert WorkerOk(c, s.threadExit, s.workers[a.w]);
    }
  }

  lemma {:induction false} NeverRunAfter(c: Config, s: State, run: seq<Action>, t: nat)
    requires Inv(c, s) && NeverRun(s, t) && IsRun(c, s, run)
    ensures NeverRun(After(c, s, run), t)
    decreases |run|
  {
    if run != [] {
      InvNext(c, s, run[0]);
      NeverRunNext(c, s, run[0], t);
      NeverRunAfter(c, Next(c, s, run[0]), run[1..], t);
    }
  }

  /** A test that a worker has not tested against thread_exit when the
      interrupt is set is never run afterwards, in any continuation; wherever
      it turns up among the results, it is marked is_break. */
  lemma InterruptStopsTests(c: Config, s: State, run: seq<Action>, t: nat)
    requires Reachable(c, s) && s.threadExit && NotYetTested(s, t) && IsRun(c, s, run)
    ensures NeverRun(After(c, s, run), t)
  {
    InvReachable(c);
    NeverRunAfter(c, s, run, t);
  }
}
