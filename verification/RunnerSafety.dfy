/** What every step of the runner keeps. */
module RunnerSafety {
  import opened Runner

  /** A job as the main thread put it on the input queue. */
  ghost predicate Untouched(c: Config, j: Job) {
    match j.origin
    case Sentinel => j == NewSentinel()
    case Test(t) => t < |c.skips| && j == NewJob(c, t)
  }

  /** A job on its way back.  It is marked is_break exactly when it was neither
      run nor taken for a skip, which takes an interrupt; otherwise it was run
      exactly when it was not to be skipped. */
  ghost predicate Treated(c: Config, threadExit: bool, j: Job) {
    && j.origin.Test? && j.origin.index < |c.skips| && j.isSkip == c.skips[j.origin.index]
    && (if j.isBreak then threadExit && !j.ran else j.ran == !j.isSkip)
    && (!j.ran ==> j.returncode == 0)
  }

  ghost predicate WorkerOk(c: Config, threadExit: bool, w: Worker) {
    match w
    case Got(j) => Untouched(c, j)
    case Past(j) => Untouched(c, j) && j.origin.Test?
    case Running(j) => Untouched(c, j) && j.origin.Test? && !j.isSkip
    case Returning(j) => Treated(c, threadExit, j)
    case _ => true
  }

  ghost predicate JobsOk(c: Config, s: State) {
    && (forall i :: 0 <= i < |s.input| ==> Untouched(c, s.input[i]))
    && (forall w :: 0 <= w < |s.workers| ==> WorkerOk(c, s.threadExit, s.workers[w]))
    && (forall i :: 0 <= i < |s.output| ==> Treated(c, s.threadExit, s.output[i]))
    && (forall i :: 0 <= i < |s.collected| ==> Treated(c, s.threadExit, s.collected[i]))
  }

  /** The main thread's loops run one after the other. */
  ghost predicate CountersOk(c: Config, s: State) {
    && s.dispatched <= |c.skips| && s.sent <= c.processors == |s.workers|
    && |s.collected| <= |c.skips| && s.joined <= c.processors
    && (s.sent > 0 ==> s.dispatched == |c.skips|)
    && (s.joined > 0 ==> |s.collected| == |c.skips|)
    && forall k :: 0 <= k < s.joined ==> s.workers[k].Exited?
  }

  ghost predicate TookSentinel(w: Worker) {
    w.Exited? || (w.Got? && w.job.origin.Sentinel?)
  }

  /** The input queue is first in, first out: tests come before sentinels, and
      once a worker has taken a sentinel no test is queued any more. */
  ghost predicate QueueOrder(s: State) {
    && (forall i, j :: 0 <= i < j < |s.input| && s.input[i].origin.Sentinel? ==> s.input[j].origin.Sentinel?)
    && (forall w, i :: 0 <= w < |s.workers| && 0 <= i < |s.input| && TookSentinel(s.workers[w]) ==>
          s.input[i].origin.Sentinel?)
    && (s.sent == 0 ==> forall i :: 0 <= i < |s.input| ==> s.input[i].origin.Test?)
    && (s.sent == 0 ==> forall w :: 0 <= w < |s.workers| ==> !TookSentinel(s.workers[w]))
  }

  // ---------- conservation ----------

  /** How often o occurs in a queue. */
  ghost function Count(js: seq<Job>, o: Origin): nat {
    if js == [] then 0 else Count(js[..|js| - 1], o) + if js[|js| - 1].origin == o then 1 else 0
  }

  /** How often a worker holds o; an exited worker keeps the sentinel that
      stopped it. */
  function Holds(w: Worker, o: Origin): nat {
    match w
    case Idle => 0
    case Exited => if o.Sentinel? then 1 else 0
    case _ => if w.job.origin == o then 1 else 0
  }

  function Busy(w: Worker): nat {
    if w.Idle? then 0 else 1
  }

  ghost function Sum(ws: seq<Worker>, f: Worker -> nat): nat {
    if ws == [] then 0 else Sum(ws[..|ws| - 1], f) + f(ws[|ws| - 1])
  }

  function Holding(o: Origin): Worker -> nat {
    w => Holds(w, o)
  }

  ghost function HeldBy(ws: seq<Worker>, o: Origin): nat {
    Sum(ws, Holding(o))
  }

  /** In how many places o is now, and how often it was put on the input queue. */
  ghost function Places(s: State, o: Origin): nat {
    Count(s.input, o) + HeldBy(s.workers, o) + Count(s.output, o) + Count(s.collected, o)
  }

  ghost function Made(s: State, o: Origin): nat {
    match o
    case Test(t) => if t < s.dispatched then 1 else 0
    case Sentinel => s.sent
  }

  /** Every dispatched test is in exactly one place, every other test in none,
      every sentinel in one; and nothing else is anywhere. */
  ghost predicate Conserved(s: State) {
    && (forall o :: Places(s, o) == Made(s, o))
    && |s.input| + Sum(s.workers, Busy) + |s.output| + |s.collected| == s.dispatched + s.sent
  }

  ghost predicate Inv(c: Config, s: State) {
    JobsOk(c, s) && CountersOk(c, s) && QueueOrder(s) && Conserved(s)
  }

  lemma CountSnoc(js: seq<Job>, j: Job, o: Origin)
    ensures Count(js + [j], o) == Count(js, o) + if j.origin == o then 1 else 0
  {
    assert (js + [j])[..|js|] == js;
  }

  lemma {:induction false} CountHead(js: seq<Job>, o: Origin)
    requires js != []
    ensures Count(js, o) == Count(js[1..], o) + if js[0].origin == o then 1 else 0
  {
    var n := |js| - 1;
    if n > 0 {
      CountHead(js[..n], o);
      assert js[1..][..n - 1] == js[..n][1..];
    }
  }

  lemma {:induction false} SumUpdate(ws: seq<Worker>, w: nat, x: Worker, f: Worker -> nat)
    requires w < |ws|
    ensures Sum(ws[w := x], f) + f(ws[w]) == Sum(ws, f) + f(x)
  {
    var n := |ws| - 1;
    var vs := ws[w := x];
    if w == n {
      assert vs[..n] == ws[..n];
    } else {
      SumUpdate(ws[..n], w, x, f);
      assert vs[..n] == ws[..n][w := x];
    }
  }

  predicate IsMain(a: Action) {
    a.Dispatch? || a.Send? || a.Collect? || a.Join? || a.Interrupt?
  }

  lemma PlacesMain(c: Config, s: State, a: Action, o: Origin)
    requires Enabled(c, s, a) && IsMain(a)
    ensures var t := Next(c, s, a); Places(t, o) + Made(s, o) == Places(s, o) + Made(t, o)
  {
    match a
    case Dispatch => CountSnoc(s.input, NewJob(c, s.dispatched), o);
    case Send => CountSnoc(s.input, NewSentinel(), o);
    case Collect => CountHead(s.output, o); CountSnoc(s.collected, s.output[0], o);
    case _ =>
  }

  lemma PlacesWorker(c: Config, s: State, a: Action, o: Origin)
    requires JobsOk(c, s) && Enabled(c, s, a) && !IsMain(a)
    ensures var t := Next(c, s, a); Places(t, o) == Places(s, o) && Made(t, o) == Made(s, o)
  {
    var t := Next(c, s, a);
    SumUpdate(s.workers, a.w, t.workers[a.w], Holding(o));
    assert WorkerOk(c, s.threadExit, s.workers[a.w]);
    match a
    case Get(w) => CountHead(s.input, o);
    case Put(w) => CountSnoc(s.output, s.workers[w].job, o);
    case _ =>
  }

  lemma ConservedNext(c: Config, s: State, a: Action)
    requires JobsOk(c, s) && Conserved(s) && Enabled(c, s, a)
    ensures Conserved(Next(c, s, a))
  {
    var t := Next(c, s, a);
    forall o ensures Places(t, o) == Made(t, o) {
      if IsMain(a) {
        PlacesMain(c, s, a, o);
      } else {
        PlacesWorker(c, s, a, o);
      }
    }
    if !IsMain(a) {
      SumUpdate(s.workers, a.w, t.workers[a.w], Busy);
    }
  }

  lemma JobsOkNext(c: Config, s: State, a: Action)
    requires JobsOk(c, s) && Enabled(c, s, a)
    ensures JobsOk(c, Next(c, s, a))
  {
  }

  lemma CountersOkNext(c: Config, s: State, a: Action)
    requires CountersOk(c, s) && Enabled(c, s, a)
    ensures CountersOk(c, Next(c, s, a))
  {
  }

  lemma QueueOrderNext(c: Config, s: State, a: Action)
    requires JobsOk(c, s) && CountersOk(c, s) && QueueOrder(s) && Enabled(c, s, a)
    ensures QueueOrder(Next(c, s, a))
  {
    if a.TestBreak? {
      assert Untouched(c, s.workers[a.w].job);
    }
  }

  lemma InvNext(c: Config, s: State, a: Action)
    requires Inv(c, s) && Enabled(c, s, a)
    ensures Inv(c, Next(c, s, a))
  {
    JobsOkNext(c, s, a);
    CountersOkNext(c, s, a);
    QueueOrderNext(c, s, a);
    ConservedNext(c, s, a);
  }

  lemma {:induction false} AllIdle(ws: seq<Worker>, f: Worker -> nat)
    requires f(Idle) == 0 && forall w :: 0 <= w < |ws| ==> ws[w].Idle?
    ensures Sum(ws, f) == 0
  {
    if ws != [] {
      AllIdle(ws[..|ws| - 1], f);
    }
  }

  lemma InvInit(c: Config)
    ensures Inv(c, Init(c))
  {
    var s := Init(c);
    AllIdle(s.workers, Busy);
    forall o ensures Places(s, o) == Made(s, o) {
      AllIdle(s.workers, Holding(o));
    }
  }

  lemma {:induction false} InvAfter(c: Config, s: State, run: seq<Action>)
    requires Inv(c, s) && IsRun(c, s, run)
    ensures Inv(c, After(c, s, run))
    decreases |run|
  {
    if run != [] {
      InvNext(c, s, run[0]);
      InvAfter(c, Next(c, s, run[0]), run[1..]);
    }
  }

  /** The invariant holds in every state that some interleaving leads to. */
  lemma InvReachable(c: Config)
    ensures forall s :: Reachable(c, s) ==> Inv(c, s)
  {
    InvInit(c);
    forall s | Reachable(c, s) ensures Inv(c, s) {
      var run :| IsRun(c, Init(c), run) && After(c, Init(c), run) == s;
      InvAfter(c, Init(c), run);
    }
  }
}
