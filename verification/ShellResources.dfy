/** Files, processes and pipes of a run of waf-tools/shellcmd.py: everything
    that is opened is closed, everything that is started is waited for, and
    pipes connect neighbours. */
module ShellResources {
  import opened Basics
  import opened ShellSyntax
  import opened ShellScript
  import opened ShellPipeline
  import opened ShellMeaning

  ghost function Times(log: seq<Event>, e: Event): nat {
    multiset(log)[e]
  }

  /** Whenever e occurs, before has occurred. */
  ghost predicate Preceded(log: seq<Event>, e: Event, before: Event) {
    forall j :: 0 <= j < |log| && log[j] == e ==> exists i :: 0 <= i < j && log[i] == before
  }

  /** f is opened at most once, and closed once if it is not waiting to be. */
  ghost predicate FileOk(m: Machine, f: File) {
    && Times(m.log, Opened(f)) == Times(m.log, Closed(f)) + (if f.DevNull? then 0 else multiset(m.toClose)[f])
    && Times(m.log, Opened(f)) <= 1
    && (f.DevNull? || f.id >= m.files ==> Times(m.log, Opened(f)) == 0)
    && Preceded(m.log, Closed(f), Opened(f))
  }

  /** The k-th process is started once, and waited for once if it does not
      belong to the group under way. */
  ghost predicate ProcOk(m: Machine, k: nat) {
    && Times(m.log, Started(k)) == (if k < |m.launches| then 1 else 0)
    && Times(m.log, Started(k)) == Times(m.log, Waited(k)) + multiset(m.procs)[k]
    && Preceded(m.log, Waited(k), Started(k))
  }

  lemma Later(a: seq<Event>, b: seq<Event>, e: Event, before: Event)
    requires Preceded(a, e, before) && (e in b ==> before in a)
    ensures Preceded(a + b, e, before)
  {
    var l := a + b;
    forall j | 0 <= j < |l| && l[j] == e ensures exists i :: 0 <= i < j && l[i] == before {
      if j < |a| {
        var i :| 0 <= i < j && a[i] == before;
        assert l[i] == before;
      } else {
        assert b[j - |a|] == e;
        var i :| 0 <= i < |a| && a[i] == before;
        assert l[i] == before;
      }
    }
  }

  /** That holds of every file and every process. */
  ghost predicate AllOk(m: Machine) {
    (forall f :: FileOk(m, f)) && (forall k: nat :: ProcOk(m, k))
  }

  lemma OpenKeeps(m: Machine, g: File)
    requires AllOk(m) && (g.File? ==> g.id == m.files)
    ensures AllOk(OpenFile(m, g))
  {
    var r := OpenFile(m, g);
    forall f ensures FileOk(r, f) {
      assert FileOk(m, f);
      if g.File? {
        Later(m.log, [Opened(g)], Closed(f), Opened(f));
      }
    }
    forall k: nat ensures ProcOk(r, k) {
      assert ProcOk(m, k);
      if g.File? {
        Later(m.log, [Opened(g)], Waited(k), Started(k));
      }
    }
  }

  lemma OutKeeps(m: Machine, r: Redirect)
    requires AllOk(m)
    ensures AllOk(OpenOut(m, r).1)
  {
    if r.Named? {
      OpenKeeps(m, OutFile(m, r.name));
    }
  }

  lemma LaunchKeeps(m: Machine, l: Launch)
    requires AllOk(m)
    ensures var n := |m.launches|;
      AllOk(m.(launches := m.launches + [l], procs := m.procs + [n], log := m.log + [Started(n)]))
  {
    var n := |m.launches|;
    var r := m.(launches := m.launches + [l], procs := m.procs + [n], log := m.log + [Started(n)]);
    forall f ensures FileOk(r, f) {
      assert FileOk(m, f);
      Later(m.log, [Started(n)], Closed(f), Opened(f));
    }
    forall k: nat ensures ProcOk(r, k) {
      assert ProcOk(m, k);
      Later(m.log, [Started(n)], Waited(k), Started(k));
    }
  }

  lemma StartKeeps(m: Machine, c: Node)
    requires c.Command? && AllOk(m)
    ensures AllOk(Start(m, c))
  {
    if m.procs == [] && c.stdin.Named? {
      OpenKeeps(m, File(m.files, c.stdin.name, false));
    }
    var m1 := OpenIn(m, c.stdin).1;
    OutKeeps(m1, c.stdout);
    var m2 := OpenOut(m1, c.stdout).1;
    OutKeeps(m2, c.stderr);
    LaunchKeeps(OpenOut(m2, c.stderr).1, Start(m, c).launches[|m.launches|]);
  }

  lemma {:induction false} GroupKeeps(g: seq<Node>, m: Machine)
    requires AllOk(m)
    ensures AllOk(ExecGroup(g, m).machine)
    decreases |g|
  {
    if g != [] {
      if g[0].Command? {
        StartKeeps(m, g[0]);
        GroupKeeps(g[1..], Start(m, g[0]));
      } else if g[0].Chdir? && |g| > 1 && g[0].dir.Some? {
        var r := m.(cwd := JoinPath(m.cwd, g[0].dir.value));
        SameBooks(m, r);
        GroupKeeps(g[1..], r);
      }
    }
  }

  lemma SameBooks(m: Machine, r: Machine)
    requires AllOk(m) && r == m.(cwd := r.cwd)
    ensures AllOk(r)
  {
    assert forall f :: FileOk(m, f) ==> FileOk(r, f);
    assert forall k: nat :: ProcOk(m, k) ==> ProcOk(r, k);
  }

  lemma {:induction false} TimesWaits(procs: seq<nat>, k: nat, e: Event)
    ensures Times(Waits(procs), Waited(k)) == multiset(procs)[k]
    ensures !e.Waited? ==> e !in Waits(procs)
  {
    if procs != [] {
      var n := |procs| - 1;
      TimesWaits(procs[..n], k, e);
      assert procs == procs[..n] + [procs[n]];
      assert Waits(procs) == Waits(procs[..n]) + [Waited(procs[n])];
    }
  }

  lemma {:induction false} TimesCloses(files: seq<File>, f: File, e: Event)
    ensures Times(Closes(files), Closed(f)) == if f.DevNull? then 0 else multiset(files)[f]
    ensures !e.Closed? ==> e !in Closes(files)
  {
    if files != [] {
      var n := |files| - 1;
      TimesCloses(files[..n], f, e);
      assert files == files[..n] + [files[n]];
    }
  }

  /** The end of a group waits for all its processes and closes all its files. */
  lemma FinishKeeps(m: Machine)
    requires AllOk(m)
    ensures AllOk(Finish(m))
  {
    forall f ensures FileOk(Finish(m), f) {
      FinishFile(m, f);
    }
    forall k: nat ensures ProcOk(Finish(m), k) {
      FinishProc(m, k);
    }
  }

  lemma FinishFile(m: Machine, f: File)
    requires FileOk(m, f)
    ensures FileOk(Finish(m), f)
  {
    var waits, closes := Waits(m.procs), Closes(m.toClose);
    TimesWaits(m.procs, 0, Opened(f));
    TimesWaits(m.procs, 0, Closed(f));
    TimesCloses(m.toClose, f, Opened(f));
    assert Closed(f) in closes ==> Times(m.log, Opened(f)) > 0;
    Later(m.log, waits, Closed(f), Opened(f));
    Later(m.log + waits, closes, Closed(f), Opened(f));
  }

  lemma FinishProc(m: Machine, k: nat)
    requires ProcOk(m, k)
    ensures ProcOk(Finish(m), k)
  {
    var waits, closes := Waits(m.procs), Closes(m.toClose);
    TimesWaits(m.procs, k, Started(k));
    TimesCloses(m.toClose, DevNull, Started(k));
    TimesCloses(m.toClose, DevNull, Waited(k));
    assert Waited(k) in waits ==> Times(m.log, Started(k)) > 0;
    Later(m.log, waits, Waited(k), Started(k));
    Later(m.log + waits, closes, Waited(k), Started(k));
  }

  /** Nothing is left open and nobody is left running. */
  ghost predicate CleanFor(o: Outcome, f: File, k: nat)
    requires !o.Nothing?
  {
    && Times(o.log, Opened(f)) == Times(o.log, Closed(f)) <= 1
    && (f.DevNull? ==> Times(o.log, Closed(f)) == 0)
    && Times(o.log, Started(k)) == Times(o.log, Waited(k)) == (if k < |o.launches| then 1 else 0)
    && Preceded(o.log, Closed(f), Opened(f)) && Preceded(o.log, Waited(k), Started(k))
  }

  ghost predicate Clean(o: Outcome)
    requires !o.Nothing?
  {
    forall f, k: nat :: CleanFor(o, f, k)
  }

  lemma NothingLeft(o: Outcome, m: Machine)
    requires !o.Nothing? && AllOk(m) && m.procs == [] && m.toClose == [] && o.log == m.log && o.launches == m.launches
    ensures Clean(o)
  {
    forall f, k: nat ensures CleanFor(o, f, k) {
      assert FileOk(m, f) && ProcOk(m, k);
    }
  }

  lemma {:induction false} ExecClean(s: Script, m: Machine, exits: nat -> int)
    requires AllOk(m) && Exec(s, m, exits).Returned?
    ensures Clean(Exec(s, m, exits))
    decreases s
  {
    var m1 := ExecGroup(s.group, m).machine;
    GroupKeeps(s.group, m);
    FinishKeeps(m1);
    if s.Then? && !Stops(s.isAnd, GroupStatus(m1.procs, exits)) {
      ExecClean(s.rest, Finish(m1), exits);
    } else {
      NothingLeft(Exec(s, m, exits), Finish(m1));
    }
  }

  /** Whenever run returns, each file it opened has been closed exactly once,
      after it was opened, the null device never; and each process it started
      has been waited for exactly once. */
  lemma RunIsClean(p: seq<Node>, exits: nat -> int)
    requires Meaning(p, exits).Returned?
    ensures Clean(Meaning(p, exits))
  {
    ExecClean(ToScript(p), INIT, exits);
  }

  // ---------- pipes ----------

  ghost predicate PipeAt(ls: seq<Launch>, k: nat)
    requires k < |ls|
  {
    if k > 0 && ls[k - 1].stdout.PipeOut? then ls[k].stdin == FromProcess(k - 1) else !ls[k].stdin.FromProcess?
  }

  /** A process reads from a pipe exactly when the one started just before it
      writes to one, and then it is that one. */
  ghost predicate PipesOk(ls: seq<Launch>) {
    forall k: nat {:trigger PipeAt(ls, k)} :: k < |ls| ==> PipeAt(ls, k)
  }

  ghost predicate WritesPipe(ls: seq<Launch>) {
    ls != [] && ls[|ls| - 1].stdout.PipeOut?
  }

  /** The commands of a group write to a pipe, except the one at its end. */
  ghost predicate Piped(g: seq<Node>) {
    if g == [] then true
    else (g[0].Command? ==> (g[0].stdout.ToPipe? <==> |g| > 1)) && Piped(g[1..])
  }

  ghost predicate AllPiped(s: Script) {
    s.group != [] && Piped(s.group) && (s.Then? ==> AllPiped(s.rest))
  }

  lemma {:induction false} ScriptPiped(p: seq<Node>)
    requires WellFormed(p)
    ensures AllPiped(ToScript(p))
    decreases |p|
  {
    FrontOf(p);
    if |p| > 1 {
      ScriptPiped(p[2..]);
      var s := ToScript(p[2..]);
      assert ([p[0]] + s.group)[1..] == s.group;
    }
  }

  ghost predicate Linked(m: Machine) {
    && PipesOk(m.launches)
    && (m.procs != [] <==> WritesPipe(m.launches))
    && (m.procs != [] ==> m.procs[|m.procs| - 1] == |m.launches| - 1)
  }

  lemma StartLinked(m: Machine, c: Node)
    requires c.Command? && Linked(m)
    ensures var r := Start(m, c);
      && PipesOk(r.launches) && (WritesPipe(r.launches) <==> c.stdout.ToPipe?)
      && r.procs != [] && r.procs[|r.procs| - 1] == |r.launches| - 1
  {
    var r := Start(m, c);
    forall k: nat | k < |r.launches| ensures PipeAt(r.launches, k) {
      if k < |m.launches| {
        assert PipeAt(m.launches, k);
      }
    }
  }

  lemma {:induction false} GroupLinked(g: seq<Node>, m: Machine)
    requires g != [] && Piped(g) && Linked(m)
    ensures PipesOk(ExecGroup(g, m).machine.launches)
    ensures ExecGroup(g, m).Done? && (forall i :: 0 <= i < |g| ==> g[i].Command? || g[i].Chdir?) ==>
              !WritesPipe(ExecGroup(g, m).machine.launches)
    decreases |g|
  {
    if g[0].Command? {
      StartLinked(m, g[0]);
      if |g| > 1 {
        GroupLinked(g[1..], Start(m, g[0]));
      }
    } else if g[0].Chdir? && |g| > 1 && g[0].dir.Some? {
      GroupLinked(g[1..], m.(cwd := JoinPath(m.cwd, g[0].dir.value)));
    }
  }

  lemma {:induction false} ExecLinked(s: Script, m: Machine, exits: nat -> int)
    requires AllPiped(s) && OperandGroups(s) && Linked(m) && m.procs == []
    ensures PipesOk(Exec(s, m, exits).launches)
    ensures Exec(s, m, exits).Returned? ==> !WritesPipe(Exec(s, m, exits).launches)
    decreases s
  {
    GroupLinked(s.group, m);
    var r := ExecGroup(s.group, m);
    if r.Done? && s.Then? {
      ExecLinked(s.rest, Finish(r.machine), exits);
    }
  }

  /** In every run of a parsed pipeline pipes connect each writer with the
      command started next, and when run returns no pipe is left dangling. */
  lemma RunConnectsPipes(p: seq<Node>, exits: nat -> int)
    requires WellFormed(p)
    ensures PipesOk(Meaning(p, exits).launches)
    ensures Meaning(p, exits).Returned? ==> !WritesPipe(Meaning(p, exits).launches)
  {
    ScriptPiped(p);
    ScriptOperands(p);
    ExecLinked(ToScript(p), INIT, exits);
  }

  // ---------- runs that raise ----------

  ghost predicate NothingPending(m: Machine) {
    m.procs == [] ==> m.toClose == []
  }

  lemma {:induction false} FailedLinked(g: seq<Node>, m: Machine)
    requires Piped(g) && Linked(m) && NothingPending(m) && ExecGroup(g, m).Failed?
    ensures Linked(ExecGroup(g, m).machine) && NothingPending(ExecGroup(g, m).machine)
    decreases |g|
  {
    if g[0].Command? {
      StartLinked(m, g[0]);
      FailedLinked(g[1..], Start(m, g[0]));
    } else if |g| > 1 && g[0].dir.Some? {
      FailedLinked(g[1..], m.(cwd := JoinPath(m.cwd, g[0].dir.value)));
    }
  }

  lemma {:induction false} ExecRaised(s: Script, m: Machine, exits: nat -> int)
    requires AllPiped(s) && OperandGroups(s) && Linked(m) && m.procs == [] && m.toClose == [] && AllOk(m)
    requires Exec(s, m, exits).Raised?
    ensures var o := Exec(s, m, exits); Clean(o) <==> !WritesPipe(o.launches)
    decreases s
  {
    var r, o := ExecGroup(s.group, m).machine, Exec(s, m, exits);
    GroupKeeps(s.group, m);
    if ExecGroup(s.group, m).Failed? {
      FailedLinked(s.group, m);
      if r.procs != [] {
        var k := r.procs[|r.procs| - 1];
        assert k in r.procs && ProcOk(r, k);
        assert !CleanFor(o, DevNull, k);
      } else {
        NothingLeft(o, r);
      }
    } else {
      GroupLinked(s.group, m);
      FinishKeeps(r);
      ExecRaised(s.rest, Finish(r), exits);
    }
  }

  /** The first cd that fails, if there is one, stands after a pipe sign and
      the cd's that follow it. */
  predicate FailsAfterPipe(p: seq<Node>, piped: bool)
    decreases |p|
  {
    if p == [] then false
    else if p[0].Command? then |p| > 1 && FailsAfterPipe(p[2..], p[1].Pipe?)
    else if |p| == 1 || !p[0].Chdir? || p[0].dir.None? then piped
    else FailsAfterPipe(p[2..], piped)
  }

  /** When a run raises, it does so at that cd. */
  lemma {:induction false} RaisedAt(p: seq<Node>, m: Machine, exits: nat -> int)
    requires WellFormed(p) && Linked(m) && Exec(ToScript(p), m, exits).Raised?
    ensures WritesPipe(Exec(ToScript(p), m, exits).launches) <==> FailsAfterPipe(p, m.procs != [])
    decreases |p|
  {
    FrontOf(p);
    var c := p[0];
    if c.Command? {
      ExecSingle(c, m);
      StartLinked(m, c);
      assert |p| == 1 ==> p == [c];
      if p[1].Pipe? {
        ExecPipe(c, ToScript(p[2..]), m, exits);
        RaisedAt(p[2..], Start(m, c), exits);
      } else {
        RaisedAt(p[2..], Finish(Start(m, c)), exits);
      }
    } else if |p| > 1 && c.dir.Some? {
      ExecCd(c.dir.value, ToScript(p[2..]), m, exits);
      RaisedAt(p[2..], m.(cwd := JoinPath(m.cwd, c.dir.value)), exits);
    }
  }

  /** A run that raises leaves a process running or a file open exactly when
      the first failing cd stands after a pipe sign. */
  lemma RaisedIsCleanIff(p: seq<Node>, exits: nat -> int)
    requires WellFormed(p) && Meaning(p, exits).Raised?
    ensures Clean(Meaning(p, exits)) <==> !FailsAfterPipe(p, false)
  {
    ScriptPiped(p);
    ScriptOperands(p);
    ExecRaised(ToScript(p), INIT, exits);
    RaisedAt(p, INIT, exits);
  }

  lemma {:induction false} FailingIsNotRunnable(p: seq<Node>, piped: bool)
    requires WellFormed(p) && FailsAfterPipe(p, piped)
    ensures !Runnable(p)
    decreases |p|
  {
    FrontOf(p);
    if |p| > 1 {
      RunnableTail(p);
      if p[0].Command? {
        FailingIsNotRunnable(p[2..], p[1].Pipe?);
      } else if p[0].dir.Some? {
        FailingIsNotRunnable(p[2..], piped);
      }
    }
  }

  /** Every run of a parsed pipeline closes all files and waits for all
      processes, whether it returns or raises, exactly when no failing cd stands
      after a pipe sign. */
  lemma AlwaysCleanIff(p: seq<Node>)
    requires WellFormed(p)
    ensures (forall exits :: Clean(Meaning(p, exits))) <==> !FailsAfterPipe(p, false)
  {
    if FailsAfterPipe(p, false) {
      FailingIsNotRunnable(p, false);
      RunSafeIff(p);
      var exits :| !Meaning(p, exits).Returned?;
      RaisedIsCleanIff(p, exits);
      assert !Clean(Meaning(p, exits));
    } else {
      forall exits ensures Clean(Meaning(p, exits)) {
        if Meaning(p, exits).Returned? {
          RunIsClean(p, exits);
        } else {
          RaisedIsCleanIff(p, exits);
        }
      }
    }
  }

  /** `a | cd` raises, and leaves a running. */
  lemma PipeIntoCd(a: Node, p: seq<Node>, exits: nat -> int)
    requires a.Command? && OperandOk(a) && a.stdout.ToPipe? && p == [a, Pipe, Chdir(None)]
    ensures WellFormed(p) && Meaning(p, exits).Raised? && !Clean(Meaning(p, exits))
  {
    OpenSnoc([], a, Pipe);
    assert p[..2] == [] + [a, Pipe] && p[2..] == [Chdir(None)];
    ExecPipe(a, ToScript(p[2..]), INIT, exits);
    assert ToScript(p[2..]) == Last([Chdir(None)]);
    RaisedIsCleanIff(p, exits);
  }

  // ---------- the order of events ----------

  /** The process has the open file as one of its streams. */
  ghost predicate Uses(l: Launch, f: File) {
    f.File? && (l.stdin == FromFile(f) || l.stdout == IntoFile(f) || l.stderr == IntoFile(f))
  }

  ghost predicate UseOk(m: Machine, k: nat, f: File)
    requires k < |m.launches|
  {
    Uses(m.launches[k], f) ==>
    && (k in m.procs ==> f in m.toClose)
    && Preceded(m.log, Started(k), Opened(f)) && Preceded(m.log, Closed(f), Waited(k))
  }

  ghost predicate AllUses(m: Machine) {
    forall k: nat, f :: k < |m.launches| ==> UseOk(m, k, f)
  }

  /** Opening a stream of a command to be started: only openings are logged,
      and the file is new and will be closed. */
  ghost predicate Opens(m: Machine, r: Machine, opens: seq<Event>) {
    && r.log == m.log + opens && (forall e :: e in opens ==> e.Opened?) && m.files <= r.files
    && m.toClose <= r.toClose && r.launches == m.launches && r.procs == m.procs
  }

  lemma OpensIn(m: Machine, c: Redirect) returns (opens: seq<Event>)
    ensures var (source, r) := OpenIn(m, c);
      && Opens(m, r, opens)
      && (source.FromFile? ==> Opened(source.file) in opens && source.file in r.toClose && source.file.File?
                               && source.file.id >= m.files)
  {
    opens := if m.procs == [] && c.Named? then [Opened(File(m.files, c.name, false))] else [];
  }

  lemma OpensOut(m: Machine, c: Redirect) returns (opens: seq<Event>)
    ensures var (sink, r) := OpenOut(m, c);
      && Opens(m, r, opens)
      && (sink.IntoFile? && sink.file.File? ==> Opened(sink.file) in opens && sink.file in r.toClose
                                                && sink.file.id >= m.files)
  {
    opens := if c.Named? && !IsNullDevice(c.name) then [Opened(File(m.files, c.name, true))] else [];
  }

  lemma OpensMore(m: Machine, m1: Machine, m2: Machine, a: seq<Event>, b: seq<Event>)
    requires Opens(m, m1, a) && Opens(m1, m2, b)
    ensures Opens(m, m2, a + b)
  {
    Associate(m.log, a, b);
  }

  /** What starting a command logs. */
  lemma StartLogs(m: Machine, c: Node) returns (opens: seq<Event>)
    requires c.Command?
    ensures var r, n := Start(m, c), |m.launches|;
      && r.log == m.log + opens + [Started(n)] && (forall e :: e in opens ==> e.Opened?)
      && m.toClose <= r.toClose && r.procs == m.procs + [n] && r.launches[..n] == m.launches && |r.launches| == n + 1
      && forall f :: Uses(r.launches[n], f) ==> Opened(f) in opens && f in r.toClose && f.id >= m.files
  {
    var a := OpensIn(m, c.stdin);
    var m1 := OpenIn(m, c.stdin).1;
    var b := OpensOut(m1, c.stdout);
    var m2 := OpenOut(m1, c.stdout).1;
    var d := OpensOut(m2, c.stderr);
    var m3 := OpenOut(m2, c.stderr).1;
    OpensMore(m, m1, m2, a, b);
    OpensMore(m, m2, m3, a + b, d);
    opens := a + b + d;
    var r, n := Start(m, c), |m.launches|;
    assert r.toClose == m3.toClose && r.log == m3.log + [Started(n)];
    forall f | Uses(r.launches[n], f) ensures Opened(f) in opens && f in r.toClose && f.id >= m.files {
      assert Opened(f) in a || Opened(f) in b || Opened(f) in d;
      assert forall g :: g in m1.toClose || g in m2.toClose ==> g in m3.toClose;
    }
  }

  lemma StartUses(m: Machine, c: Node)
    requires c.Command? && AllOk(m) && AllUses(m)
    ensures AllUses(Start(m, c))
  {
    var r, n := Start(m, c), |m.launches|;
    var opens := StartLogs(m, c);
    var more := opens + [Started(n)];
    assert r.log == m.log + more;
    assert ProcOk(m, n);
    forall k: nat, f | k < |r.launches| && Uses(r.launches[k], f) ensures UseOk(r, k, f) {
      assert FileOk(m, f);
      if k < n {
        assert r.launches[k] == r.launches[..n][k] == m.launches[k];
        assert UseOk(m, k, f);
        Later(m.log, more, Started(k), Opened(f));
        Later(m.log, more, Closed(f), Waited(k));
      } else {
        NotYet(m.log, Started(n), Opened(f));
        NotYet(m.log, Closed(f), Waited(n));
        NotYet(m.log + opens, Started(n), Opened(f));
        Later(m.log + opens, [Started(n)], Started(n), Opened(f));
        Later(m.log, more, Closed(f), Waited(n));
      }
    }
    forall k: nat, f | k < |r.launches| ensures UseOk(r, k, f) {
      if Uses(r.launches[k], f) {
        assert UseOk(r, k, f);
      }
    }
  }

  lemma NotYet(log: seq<Event>, e: Event, before: Event)
    requires e !in log
    ensures Preceded(log, e, before)
  {
  }

  lemma {:induction false} GroupUses(g: seq<Node>, m: Machine)
    requires AllOk(m) && AllUses(m)
    ensures AllUses(ExecGroup(g, m).machine)
    decreases |g|
  {
    if g != [] {
      if g[0].Command? {
        StartKeeps(m, g[0]);
        StartUses(m, g[0]);
        GroupUses(g[1..], Start(m, g[0]));
      } else if g[0].Chdir? && |g| > 1 && g[0].dir.Some? {
        var r := m.(cwd := JoinPath(m.cwd, g[0].dir.value));
        SameBooks(m, r);
        assert forall k: nat, f :: k < |m.launches| && UseOk(m, k, f) ==> UseOk(r, k, f);
        GroupUses(g[1..], r);
      }
    }
  }

  lemma FinishUses(m: Machine)
    requires AllOk(m) && AllUses(m)
    ensures AllUses(Finish(m))
  {
    var r, waits, closes := Finish(m), Waits(m.procs), Closes(m.toClose);
    forall k: nat, f | k < |r.launches| ensures UseOk(r, k, f) {
      assert UseOk(m, k, f) && ProcOk(m, k);
      if Uses(m.launches[k], f) {
        TimesWaits(m.procs, k, Started(k));
        TimesWaits(m.procs, k, Closed(f));
        TimesCloses(m.toClose, f, Started(k));
        Later(m.log, waits, Started(k), Opened(f));
        Later(m.log + waits, closes, Started(k), Opened(f));
        Later(m.log, waits, Closed(f), Waited(k));
        assert Times(m.log, Waited(k)) > 0 || k in m.procs;
        assert Waited(k) in m.log + waits;
        Later(m.log + waits, closes, Closed(f), Waited(k));
      }
    }
  }

  /** A file is opened before the process that uses it is started, and closed
      after that process has been waited for. */
  ghost predicate Ordered(o: Outcome)
    requires !o.Nothing?
  {
    forall k: nat, f :: k < |o.launches| && Uses(o.launches[k], f) ==>
      Preceded(o.log, Started(k), Opened(f)) && Preceded(o.log, Closed(f), Waited(k))
  }

  lemma {:induction false} ExecOrdered(s: Script, m: Machine, exits: nat -> int)
    requires AllOk(m) && AllUses(m)
    ensures Ordered(Exec(s, m, exits))
    decreases s
  {
    var r, o := ExecGroup(s.group, m), Exec(s, m, exits);
    GroupKeeps(s.group, m);
    GroupUses(s.group, m);
    FinishKeeps(r.machine);
    FinishUses(r.machine);
    if r.Done? && s.Then? && !Stops(s.isAnd, GroupStatus(r.machine.procs, exits)) {
      ExecOrdered(s.rest, Finish(r.machine), exits);
    } else {
      var end := if r.Done? then Finish(r.machine) else r.machine;
      forall k: nat, f | k < |o.launches| && Uses(o.launches[k], f)
        ensures Preceded(o.log, Started(k), Opened(f)) && Preceded(o.log, Closed(f), Waited(k)) {
        assert UseOk(end, k, f);
      }
    }
  }

  /** In every run of a pipeline, also in one that raises. */
  lemma RunInOrder(p: seq<Node>, exits: nat -> int)
    requires p != []
    ensures Ordered(Meaning(p, exits))
  {
    ExecOrdered(ToScript(p), INIT, exits);
  }

  // ---------- directories ----------

  /** os.path.join: an absolute path stands for itself, any other one is put
      after the first, with one slash between them. */
  lemma JoinPathIs(a: string, b: string)
    ensures JoinPath(a, "/" + b) == "/" + b
    ensures a != [] && a[|a| - 1] != '/' && !("/" <= b) ==> JoinPath(a, b) == a + "/" + b
    ensures !("/" <= b) ==> JoinPath(a + "/", b) == a + "/" + b && JoinPath("", b) == b
  {
    assert "" + b == b;
  }

  /** The two ways in which a cd fails. */
  lemma CdErrors(dir: Option<string>, b: Node, exits: nat -> int)
    requires b.Command?
    ensures Meaning([Chdir(dir)], exits) == Raised(IndexError, [], [])
    ensures Meaning([Chdir(None), And, b], exits) == Raised(TypeError, [], [])
  {
    assert [Chdir(None), And, b][2..] == [b];
  }

  /** After `cd dir && b` with an absolute directory b is started there; after a
      relative one, below it. */
  lemma StartedThere(dir: string, b: Node, p: seq<Node>, exits: nat -> int)
    requires LastOk(b) && b.Command? && dir != "&&" && p == [Chdir(Some(dir)), And, b]
    ensures |Meaning(p, exits).launches| == 1
    ensures Meaning(p, exits).launches[0].cwd ==
            Some(if dir != [] && dir[0] == '/' then dir else "./" + dir)
  {
    assert p[2..] == [b] && "." + "/" + dir == "./" + dir && |"./" + dir| > |"."|;
    ExecCd(dir, ToScript([b]), INIT, exits);
    ExecSingle(b, INIT.(cwd := JoinPath(".", dir)));
  }
}
