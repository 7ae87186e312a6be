/** The collect loop of run_tests in test.py: counting results, remembering
    names, and the exit status. */
module RunnerTally {
  import opened Runner
  import opened RunnerSafety
  import opened RunnerProgress

  datatype Status = Interrupted | Skipped | Passed | Failed | Valgrind | Crashed

  /** What a result means. */
  function StatusOf(j: Job): Status {
    if j.isBreak then Interrupted
    else if j.isSkip then Skipped
    else if j.returncode == 0 then Passed
    else if j.returncode == 1 then Failed
    else if j.returncode == 2 then Valgrind
    else Crashed
  }

  /** The results with a given status, in the order of their arrival. */
  ghost function With(results: seq<Job>, st: Status): seq<Job> {
    if results == [] then [] else
    var n := |results| - 1;
    With(results[..n], st) + if StatusOf(results[n]) == st then [results[n]] else []
  }

  /** Display names and skip reasons of the dispatched tests. */
  datatype Labels = Labels(names: seq<string>, reasons: seq<string>)

  predicate Labelled(l: Labels, j: Job) {
    j.origin.Test? && j.origin.index < |l.names| && j.origin.index < |l.reasons|
  }

  function Name(l: Labels, j: Job): string {
    if Labelled(l, j) then l.names[j.origin.index] else ""
  }

  function SkipName(l: Labels, j: Job): string {
    if Labelled(l, j) then l.names[j.origin.index] + " (" + l.reasons[j.origin.index] + ")" else ""
  }

  ghost function Names(l: Labels, js: seq<Job>): seq<string> {
    seq(|js|, i requires 0 <= i < |js| => Name(l, js[i]))
  }

  ghost function SkipNames(l: Labels, js: seq<Job>): seq<string> {
    seq(|js|, i requires 0 <= i < |js| => SkipName(l, js[i]))
  }

  datatype Tally = Tally(passed: nat, skipped: nat, failed: nat, valgrind: nat, crashed: nat,
                         skippedNames: seq<string>, failedNames: seq<string>,
                         valgrindNames: seq<string>, crashedNames: seq<string>)

  /** Each counter is the number of results with its status, and each list
      names exactly those results. */
  ghost predicate Counts(l: Labels, results: seq<Job>, t: Tally) {
    && t.passed == |With(results, Passed)| && t.skipped == |With(results, Skipped)|
    && t.failed == |With(results, Failed)| && t.valgrind == |With(results, Valgrind)|
    && t.crashed == |With(results, Crashed)|
    && t.skippedNames == SkipNames(l, With(results, Skipped))
    && t.failedNames == Names(l, With(results, Failed))
    && t.valgrindNames == Names(l, With(results, Valgrind))
    && t.crashedNames == Names(l, With(results, Crashed))
  }

  lemma NamesSnoc(l: Labels, js: seq<Job>, j: Job)
    ensures Names(l, js + [j]) == Names(l, js) + [Name(l, j)]
    ensures SkipNames(l, js + [j]) == SkipNames(l, js) + [SkipName(l, j)]
  {
  }

  method Collect(l: Labels, results: seq<Job>) returns (t: Tally)
    ensures Counts(l, results, t)
  {
    var passed, skipped, failed, valgrind, crashed: nat := 0, 0, 0, 0, 0;
    var skippedNames: seq<string>, failedNames: seq<string> := [], [];
    var valgrindNames: seq<string>, crashedNames: seq<string> := [], [];
    for i := 0 to |results|
      invariant Counts(l, results[..i], Tally(passed, skipped, failed, valgrind, crashed,
                                              skippedNames, failedNames, valgrindNames, crashedNames))
    {
      var job := results[i];
      assert results[..i + 1][..i] == results[..i];
      NamesSnoc(l, With(results[..i], StatusOf(job)), job);
      if job.isBreak {
        continue;
      }
      if job.isSkip {
        skipped := skipped + 1;
        skippedNames := skippedNames + [SkipName(l, job)];
      } else {
        if job.returncode == 0 {
          passed := passed + 1;
        } else if job.returncode == 1 {
          failed := failed + 1;
          failedNames := failedNames + [Name(l, job)];
        } else if job.returncode == 2 {
          valgrind := valgrind + 1;
          valgrindNames := valgrindNames + [Name(l, job)];
        } else {
          crashed := crashed + 1;
          crashedNames := crashedNames + [Name(l, job)];
        }
      }
    }
    assert results[..|results|] == results;
    t := Tally(passed, skipped, failed, valgrind, crashed, skippedNames, failedNames, valgrindNames, crashedNames);
  }

  /** The status run_tests returns. */
  function ExitStatus(t: Tally, totalTests: nat): int {
    if t.passed + t.skipped == totalTests then 0 else 1
  }

  lemma {:induction false} EveryResultCounts(results: seq<Job>)
    ensures |With(results, Passed)| + |With(results, Skipped)| + |With(results, Failed)| + |With(results, Valgrind)|
            + |With(results, Crashed)| + |With(results, Interrupted)| == |results|
  {
    if results != [] {
      EveryResultCounts(results[..|results| - 1]);
    }
  }

  /** A result is good when the test was skipped, or was run to return code 0. */
  predicate Good(j: Job) {
    !j.isBreak && (j.isSkip || (j.ran && j.returncode == 0))
  }

  lemma {:induction false} AllGood(c: Config, threadExit: bool, results: seq<Job>)
    requires forall i :: 0 <= i < |results| ==> Treated(c, threadExit, results[i])
    ensures |With(results, Passed)| + |With(results, Skipped)| <= |results|
    ensures |With(results, Passed)| + |With(results, Skipped)| == |results|
            <==> forall i :: 0 <= i < |results| ==> Good(results[i])
  {
    if results != [] {
      var n := |results| - 1;
      AllGood(c, threadExit, results[..n]);
      assert Treated(c, threadExit, results[n]);
      assert forall i :: 0 <= i < n ==> results[i] == results[..n][i];
    }
  }

  // ---------- whole runs ----------

  ghost predicate Unique(js: seq<Job>, o: Origin) {
    forall i, k :: 0 <= i < |js| && 0 <= k < |js| && js[i].origin == o && js[k].origin == o ==> i == k
  }

  lemma {:induction false} CountFinds(js: seq<Job>, o: Origin)
    ensures Count(js, o) > 0 <==> exists i :: 0 <= i < |js| && js[i].origin == o
    ensures Count(js, o) == 1 ==> Unique(js, o)
  {
    if js != [] {
      var n := |js| - 1;
      CountFinds(js[..n], o);
      assert forall i :: 0 <= i < n ==> js[i] == js[..n][i];
    }
  }

  /** In a final state the counters account for every dispatched test, and the
      exit status is 0 exactly when every test came back good: uninterrupted
      and either skipped or really run with return code 0. */
  lemma FinalAccounting(c: Config, s: State, l: Labels, t: Tally)
    requires Reachable(c, s) && Finished(c, s) && Counts(l, s.collected, t)
    ensures t.passed + t.failed + t.crashed + t.skipped + t.valgrind + |With(s.collected, Interrupted)|
            == |s.collected| == |c.skips|
    ensures |t.skippedNames| == t.skipped && |t.failedNames| == t.failed
            && |t.valgrindNames| == t.valgrind && |t.crashedNames| == t.crashed
    ensures ExitStatus(t, |c.skips|) == 0 <==>
            forall k: nat :: k < |c.skips| ==>
              exists i :: 0 <= i < |s.collected| && s.collected[i].origin == Test(k) && Good(s.collected[i])
  {
    InvReachable(c);
    FinishedIsComplete(c, s);
    EveryResultCounts(s.collected);
    AllGood(c, s.threadExit, s.collected);
    forall k: nat | k < |c.skips|
      ensures exists i :: 0 <= i < |s.collected| && s.collected[i].origin == Test(k)
      ensures Unique(s.collected, Test(k)) {
      CountFinds(s.collected, Test(k));
    }
    assert forall i :: 0 <= i < |s.collected| ==> Treated(c, s.threadExit, s.collected[i]);
  }
}
