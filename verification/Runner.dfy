/** The worker protocol of test.py as a transition system: the main thread of
    run_tests, P worker threads, two FIFO queues and the interrupt flag
    thread_exit, which a signal may set between any two steps. */
module Runner {

  datatype Origin = Test(index: nat) | Sentinel

  /** A Job object.  A new one has return code 0 (Python's False).  The field
      ran records whether run_job_synchronously has returned for it. */
  datatype Job = Job(origin: Origin, isBreak: bool, isSkip: bool, ran: bool, returncode: int)

  /** skips[t] says whether the t-th dispatched test is to be skipped. */
  datatype Config = Config(skips: seq<bool>, processors: nat)

  /** Where a worker thread stands in its loop; every arrow of the loop that
      touches shared state is a step of its own. */
  datatype Worker =
    | Idle
    | Got(job: Job)        // dequeued
    | Past(job: Job)       // is_break tested, not a sentinel
    | Running(job: Job)    // inside run_job_synchronously
    | Returning(job: Job)  // about to put the job on the output queue
    | Exited

  /** The four counters are the main thread's progress through its four loops:
      dispatch, sentinels, collect, join. */
  datatype State = State(
    dispatched: nat, sent: nat, collected: seq<Job>, joined: nat,
    input: seq<Job>, output: seq<Job>, workers: seq<Worker>, threadExit: bool)

  datatype Action =
    | Dispatch | Send | Collect | Join
    | Interrupt
    | Get(w: nat) | TestBreak(w: nat) | TestExit(w: nat) | Finish(w: nat, rc: int) | Put(w: nat)

  function NewJob(c: Config, t: nat): Job
    requires t < |c.skips|
  {
    Job(Test(t), false, c.skips[t], false, 0)
  }

  function NewSentinel(): Job {
    Job(Sentinel, true, false, false, 0)
  }

  function Init(c: Config): State {
    State(0, 0, [], 0, [], [], seq(c.processors, i => Idle), false)
  }

  predicate Enabled(c: Config, s: State, a: Action) {
    match a
    case Dispatch => s.dispatched < |c.skips|
    case Send => s.dispatched == |c.skips| && s.sent < c.processors
    case Collect =>
      s.dispatched == |c.skips| && s.sent == c.processors && |s.collected| < |c.skips| && s.output != []
    case Join =>
      s.dispatched == |c.skips| && s.sent == c.processors && |s.collected| == |c.skips|
      && s.joined < c.processors && s.joined < |s.workers| && s.workers[s.joined].Exited?
    case Interrupt => !s.threadExit
    case Get(w) => w < |s.workers| && s.workers[w].Idle? && s.input != []
    case TestBreak(w) => w < |s.workers| && s.workers[w].Got?
    case TestExit(w) => w < |s.workers| && s.workers[w].Past?
    case Finish(w, rc) => w < |s.workers| && s.workers[w].Running?
    case Put(w) => w < |s.workers| && s.workers[w].Returning?
  }

  function Next(c: Config, s: State, a: Action): State
    requires Enabled(c, s, a)
  {
    match a
    case Dispatch => s.(dispatched := s.dispatched + 1, input := s.input + [NewJob(c, s.dispatched)])
    case Send => s.(sent := s.sent + 1, input := s.input + [NewSentinel()])
    case Collect => s.(collected := s.collected + [s.output[0]], output := s.output[1..])
    case Join => s.(joined := s.joined + 1)
    case Interrupt => s.(threadExit := true)
    case Get(w) => s.(workers := s.workers[w := Got(s.input[0])], input := s.input[1..])
    case TestBreak(w) =>
      s.(workers := s.workers[w := if s.workers[w].job.isBreak then Exited else Past(s.workers[w].job)])
    case TestExit(w) =>
      var job := s.workers[w].job;
      s.(workers := s.workers[w := if s.threadExit then Returning(job.(isBreak := true))
                                   else if job.isSkip then Returning(job) else Running(job)])
    case Finish(w, rc) =>
      s.(workers := s.workers[w := Returning(s.workers[w].job.(ran := true, returncode := rc))])
    case Put(w) => s.(output := s.output + [s.workers[w].job], workers := s.workers[w := Idle])
  }

  predicate Finished(c: Config, s: State) {
    s.dispatched == |c.skips| && s.sent == c.processors && |s.collected| == |c.skips| && s.joined == c.processors
  }

  // ---------- runs ----------

  /** run is a sequence of steps that can be taken one after the other from s. */
  ghost predicate IsRun(c: Config, s: State, run: seq<Action>)
    decreases |run|
  {
    run == [] || (Enabled(c, s, run[0]) && IsRun(c, Next(c, s, run[0]), run[1..]))
  }

  ghost function After(c: Config, s: State, run: seq<Action>): State
    requires IsRun(c, s, run)
    decreases |run|
  {
    if run == [] then s else After(c, Next(c, s, run[0]), run[1..])
  }

  ghost predicate Reachable(c: Config, s: State) {
    exists run :: IsRun(c, Init(c), run) && After(c, Init(c), run) == s
  }

  /** No step but a further signal can be taken. */
  ghost predicate Stuck(c: Config, s: State) {
    forall a :: Enabled(c, s, a) ==> a.Interrupt?
  }
}
