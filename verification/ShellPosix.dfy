/** How far run of waf-tools/shellcmd.py agrees with the POSIX shell: sections
    2.9.2 (pipelines) and 2.9.3 (lists) of the POSIX.1-2017 Shell Command
    Language, for a cd that succeeds. */
module ShellPosix {
  import opened Basics
  import opened ShellSyntax
  import opened ShellScript
  import opened ShellPipeline
  import opened ShellMeaning

  /** A command that is started, its directory, and whether it reads from the
      command before it. */
  datatype Step = Step(at: Placed, piped: bool)

  datatype Trace = Trace(status: int, started: seq<Step>)

  function Before(x: Step, t: Trace): Trace {
    Trace(t.status, [x] + t.started)
  }

  /** Where the evaluation of a list stands: the number of the next command, the
      directory, whether the next part reads from a pipe, whether it runs, and
      the status so far. */
  datatype Now = Now(k: nat, cwd: string, piped: bool, run: bool, status: int)

  /** A part that does not run keeps the status; a cd succeeds. */
  function StatusAfter(n: Node, now: Now, exits: nat -> int): int {
    if !now.run then now.status else if n.Command? then exits(now.k) else 0
  }

  /** && and || have the same precedence and associate to the left: an operator
      that does not want the status so far skips the next pipe group.  The
      status of a pipe group is that of its last part.  A cd after a pipe sign
      moves a subshell only. */
  function Move(n: Node, op: Node, now: Now, exits: nat -> int): Now {
    var k := if n.Command? then now.k + 1 else now.k;
    var cwd := if now.run && !now.piped then DirAfter(n, now.cwd) else now.cwd;
    var status := StatusAfter(n, now, exits);
    if op.Pipe? then Now(k, cwd, true, now.run, now.status)
    else Now(k, cwd, false, if op.And? then status == 0 else status != 0, status)
  }

  /** What POSIX asks for when the k-th command of the pipeline exits with
      exits(k).  A file named for input replaces the pipe. */
  function Posix(p: seq<Node>, now: Now, exits: nat -> int): Trace
    decreases |p|
  {
    if p == [] then Trace(now.status, []) else
    var rest := if |p| == 1 then Trace(StatusAfter(p[0], now, exits), [])
                else Posix(p[2..], Move(p[0], p[1], now, exits), exits);
    Starting(p[0], now, rest)
  }

  function Starting(n: Node, now: Now, rest: Trace): Trace {
    if n.Command? && now.run then Before(Step(Placed(n, now.cwd), now.piped && !n.stdin.Named?), rest) else rest
  }

  function DirAfter(n: Node, cwd: string): string {
    if n.Chdir? && n.dir.Some? then JoinPath(cwd, n.dir.value) else cwd
  }

  const BEGIN := Now(0, ".", false, true, 0)

  function PosixRun(p: seq<Node>, exits: nat -> int): Trace {
    Posix(p, BEGIN, exits)
  }

  function CommandCount(p: seq<Node>): nat
    decreases |p|
  {
    if p == [] then 0
    else (if p[0].Command? then 1 else 0) + if |p| == 1 then 0 else CommandCount(p[2..])
  }

  /** The directory after a list. */
  function EndDir(p: seq<Node>, now: Now, exits: nat -> int): string
    decreases |p|
  {
    if p == [] then now.cwd
    else if |p| == 1 then if now.run && !now.piped then DirAfter(p[0], now.cwd) else now.cwd
    else EndDir(p[2..], Move(p[0], p[1], now, exits), exits)
  }

  /** The status of everything to the left of an operator decides about what
      follows it, which goes on with the next command in the directory where
      the left part has ended. */
  lemma {:induction false} LeftAssociative(p: seq<Node>, op: Node, q: seq<Node>, now: Now, exits: nat -> int)
    requires |p| % 2 == 1 && !op.Pipe?
    ensures var left := Posix(p, now, exits);
      var next := Now(now.k + CommandCount(p), EndDir(p, now, exits), false, !Stops(op.And?, left.status), left.status);
      var right := Posix(q, next, exits);
      Posix(p + [op] + q, now, exits) == Trace(right.status, left.started + right.started)
    decreases |p|
  {
    var all := p + [op] + q;
    if |p| == 1 {
      assert all[2..] == q;
      StartingJoin(p[0], now, Trace(StatusAfter(p[0], now, exits), []), Posix(q, Move(p[0], op, now, exits), exits));
    } else {
      var next, rest := Move(p[0], p[1], now, exits), p[2..];
      assert all[2..] == rest + [op] + q && all[0] == p[0] && all[1] == p[1];
      LeftAssociative(rest, op, q, next, exits);
      var left := Posix(rest, next, exits);
      var after := Now(next.k + CommandCount(rest), EndDir(rest, next, exits), false, !Stops(op.And?, left.status),
                       left.status);
      StartingJoin(p[0], now, left, Posix(q, after, exits));
    }
  }

  lemma StartingJoin(n: Node, now: Now, left: Trace, right: Trace)
    ensures Starting(n, now, Trace(right.status, left.started + right.started)) ==
            Trace(right.status, Starting(n, now, left).started + right.started)
    ensures Starting(n, now, left).status == left.status
  {
  }

  /** What run does, in the same terms. */
  function Ran(p: seq<Node>, k: nat, cwd: string, piped: bool, exits: nat -> int): Trace
    decreases |p|
  {
    if p == [] then Trace(0, [])
    else if p[0].Command? then
      var code := exits(k);
      Before(Step(Placed(p[0], cwd), piped),
             if |p| == 1 then Trace(code, [])
             else if p[1].Pipe? then Ran(p[2..], k + 1, cwd, true, exits)
             else if Stops(p[1].And?, code) then Trace(code, [])
             else Ran(p[2..], k + 1, cwd, false, exits))
    else if |p| == 1 then Trace(0, [])
    else Ran(p[2..], k, DirAfter(p[0], cwd), piped, exits)
  }

  // ---------- launches and traces ----------

  /** The launch runs the words of the command in its environment. */
  ghost predicate SameWords(l: Launch, s: Step) {
    s.at.cmd.Command? && l.argv == [s.at.cmd.name] + s.at.cmd.args && l.env == s.at.cmd.env
  }

  /** ... in the same directory, with the same files, on the same end of a pipe. */
  ghost predicate SameStart(l: Launch, s: Step) {
    Starts(l, s.at) && (l.stdin.FromProcess? <==> s.piped)
  }

  ghost predicate AllSameWords(ls: seq<Launch>, ss: seq<Step>) {
    |ls| == |ss| && forall i :: 0 <= i < |ls| ==> SameWords(ls[i], ss[i])
  }

  ghost predicate AllSameStart(ls: seq<Launch>, ss: seq<Step>) {
    |ls| == |ss| && forall i :: 0 <= i < |ls| ==> SameStart(ls[i], ss[i])
  }

  /** run starts the same commands in the same order as POSIX and returns the
      same status. */
  ghost predicate SameCommands(p: seq<Node>, exits: nat -> int) {
    var o, t := Meaning(p, exits), PosixRun(p, exits);
    o.Returned? && o.status == t.status && AllSameWords(o.launches, t.started)
  }

  /** ... and in the same directories, reading from the same places. */
  ghost predicate SameRun(p: seq<Node>, exits: nat -> int) {
    var o, t := Meaning(p, exits), PosixRun(p, exits);
    o.Returned? && o.status == t.status && AllSameStart(o.launches, t.started)
  }

  lemma StartsStep(m: Machine, c: Node)
    requires c.Command?
    ensures SameStart(Start(m, c).launches[|m.launches|], Step(Placed(c, m.cwd), m.procs != []))
  {
  }

  /** From m on the run has gone as the trace says: to its end when run returns,
      and up to the failing cd when it raises. */
  ghost predicate Follows(o: Outcome, m: Machine, t: Trace) {
    && !o.Nothing? && m.launches <= o.launches
    && var ls := o.launches[|m.launches|..];
       && |ls| <= |t.started| && AllSameStart(ls, t.started[..|ls|])
       && (o.Returned? ==> o.status == t.status && |ls| == |t.started|)
  }

  lemma OneMoreStart(o: Outcome, m: Machine, c: Node, next: Machine, t: Trace)
    requires c.Command? && next.launches == Start(m, c).launches && Follows(o, next, t)
    ensures Follows(o, m, Before(Step(Placed(c, m.cwd), m.procs != []), t))
  {
    StartStarts(m, c);
    StartsStep(m, c);
    var x, rest := Step(Placed(c, m.cwd), m.procs != []), o.launches[|next.launches|..];
    assert o.launches[|m.launches|..] == [next.launches[|m.launches|]] + rest;
    assert ([x] + t.started)[..1 + |rest|] == [x] + t.started[..|rest|];
  }

  /** The launches of a run are those of its trace. */
  lemma {:induction false} ExecIsRan(p: seq<Node>, m: Machine, exits: nat -> int)
    requires WellFormed(p)
    ensures Follows(Exec(ToScript(p), m, exits), m, Ran(p, |m.launches|, m.cwd, m.procs != [], exits))
    decreases |p|, 1
  {
    FrontOf(p);
    if p[0].Command? {
      CommandIsRan(p, m, exits);
    } else if |p| > 1 && p[0].dir.Some? {
      ExecCd(p[0].dir.value, ToScript(p[2..]), m, exits);
      ExecIsRan(p[2..], m.(cwd := JoinPath(m.cwd, p[0].dir.value)), exits);
    }
  }

  lemma {:induction false} CommandIsRan(p: seq<Node>, m: Machine, exits: nat -> int)
    requires WellFormed(p) && p[0].Command?
    ensures Follows(Exec(ToScript(p), m, exits), m, Ran(p, |m.launches|, m.cwd, m.procs != [], exits))
    decreases |p|, 0
  {
    FrontOf(p);
    var c, n, r, o := p[0], |m.launches|, Start(m, p[0]), Exec(ToScript(p), m, exits);
    StartStarts(m, c);
    ExecSingle(c, m);
    if |p| == 1 {
      assert p == [c];
      OneMoreStart(o, m, c, r, Trace(exits(n), []));
    } else if p[1].Pipe? {
      ExecPipe(c, ToScript(p[2..]), m, exits);
      ExecIsRan(p[2..], r, exits);
      OneMoreStart(o, m, c, r, Ran(p[2..], n + 1, m.cwd, true, exits));
    } else if Stops(p[1].And?, exits(n)) {
      OneMoreStart(o, m, c, r, Trace(exits(n), []));
    } else {
      ExecIsRan(p[2..], Finish(r), exits);
      OneMoreStart(o, m, c, Finish(r), Ran(p[2..], n + 1, m.cwd, false, exits));
    }
  }

  lemma RunIsRan(p: seq<Node>, exits: nat -> int)
    requires WellFormed(p) && Runnable(p)
    ensures var o, t := Meaning(p, exits), Ran(p, 0, ".", false, exits);
      o.Returned? && o.status == t.status && AllSameStart(o.launches, t.started)
  {
    ExecIsRan(p, INIT, exits);
    RunMeansRightAssoc(p, exits);
    var o, t := Meaning(p, exits), Ran(p, 0, ".", false, exits);
    assert o.launches[0..] == o.launches && t.started[..|t.started|] == t.started;
  }

  // ---------- which pipelines ----------

  /** All && (true) and || (false) of a pipeline. */
  function AllOps(p: seq<Node>): seq<bool>
    decreases |p|
  {
    if |p| <= 1 then [] else (if p[1].Pipe? then [] else [p[1].And?]) + AllOps(p[2..])
  }

  /** Those from the first one that follows a command: the && after the cd's
      before it are dropped. */
  function OpsFromCommand(p: seq<Node>): seq<bool>
    decreases |p|
  {
    if |p| <= 1 then []
    else if p[0].Chdir? || p[1].Pipe? then OpsFromCommand(p[2..])
    else AllOps(p)
  }

  ghost predicate AllAre(ops: seq<bool>, op: bool) {
    forall i :: 0 <= i < |ops| ==> ops[i] == op
  }

  /** Only one of && and || occurs. */
  ghost predicate Uniform(ops: seq<bool>) {
    AllAre(ops, true) || AllAre(ops, false)
  }

  /** Every pipe sign is followed by a command that names no input file. */
  ghost predicate PlainPipes(p: seq<Node>) {
    forall i :: 0 < i < |p| && p[i - 1].Pipe? ==> p[i].Command? && !p[i].stdin.Named?
  }

  lemma AllAreConcat(a: seq<bool>, b: seq<bool>, op: bool)
    ensures AllAre(a + b, op) <==> AllAre(a, op) && AllAre(b, op)
  {
    if AllAre(a + b, op) {
      assert forall i :: 0 <= i < |a| ==> a[i] == (a + b)[i];
      assert forall i :: 0 <= i < |b| ==> b[i] == (a + b)[|a| + i];
    }
  }

  lemma AllAreTail(p: seq<Node>, op: bool)
    requires |p| >= 2
    ensures AllAre(AllOps(p), op) <==> (p[1].Pipe? || p[1].And? == op) && AllAre(AllOps(p[2..]), op)
  {
    var first := if p[1].Pipe? then [] else [p[1].And?];
    assert AllAre(first, op) <==> p[1].Pipe? || p[1].And? == op by { assert first != [] ==> first[0] == p[1].And?; }
    AllAreConcat(first, AllOps(p[2..]), op);
  }

  lemma {:induction false} FromCommandWithin(p: seq<Node>, op: bool)
    requires AllAre(AllOps(p), op)
    ensures AllAre(OpsFromCommand(p), op)
    decreases |p|
  {
    if |p| > 1 {
      AllAreTail(p, op);
      FromCommandWithin(p[2..], op);
    }
  }

  // ---------- agreement ----------

  /** Once skipping has begun, operators of the same kind skip the rest. */
  lemma {:induction false} SkipsRest(p: seq<Node>, now: Now, op: bool, exits: nat -> int)
    requires WellFormed(p) && AllAre(AllOps(p), op) && Stops(op, now.status) && !now.run
    ensures Posix(p, now, exits) == Trace(now.status, [])
    decreases |p|
  {
    FrontOf(p);
    if |p| > 1 {
      AllAreTail(p, op);
      SkipsRest(p[2..], Move(p[0], p[1], now, exits), op, exits);
    }
  }

  ghost predicate SameWordsIn(a: seq<Step>, b: seq<Step>) {
    |a| == |b| && forall i :: 0 <= i < |a| ==> a[i].at.cmd == b[i].at.cmd
  }

  /** What comes next reads alike from a pipe in both. */
  ghost predicate PlainAfter(p: seq<Node>, piped: bool)
    requires p != []
  {
    piped ==> p[0].Command? && !p[0].stdin.Named?
  }

  lemma PlainTail(p: seq<Node>)
    requires |p| >= 3 && !p[0].Pipe?
    ensures PlainPipes(p) <==> PlainAfter(p[2..], p[1].Pipe?) && PlainPipes(p[2..])
  {
    var q := p[2..];
    assert forall i :: 0 <= i < |q| ==> q[i] == p[i + 2];
    assert forall i :: 2 <= i < |p| ==> p[i] == q[i - 2];
  }

  /** The same commands and status; if exact, the same in every respect. */
  ghost predicate Alike(a: Trace, b: Trace, exact: bool) {
    a.status == b.status && SameWordsIn(a.started, b.started) && (exact ==> a == b)
  }

  lemma AlikeLater(x: Step, y: Step, a: Trace, b: Trace, now: bool, later: bool)
    requires Alike(a, b, later) && x.at.cmd == y.at.cmd && (now ==> later && x == y)
    ensures Alike(Before(x, a), Before(y, b), now)
  {
  }

  ghost predicate Exact(p: seq<Node>, cwd: string, piped: bool, now: Now)
    requires p != []
  {
    PlainPipes(p) && cwd == now.cwd && piped == now.piped && PlainAfter(p, piped)
  }

  /** With one kind of operator after the first command, both run the same
      commands to the same status; with plain pipes, all else agrees, too. */
  lemma {:induction false} Agree(p: seq<Node>, cwd: string, piped: bool, now: Now, exits: nat -> int)
    requires WellFormed(p) && Uniform(OpsFromCommand(p)) && now.run
    ensures Alike(Ran(p, now.k, cwd, piped, exits), Posix(p, now, exits), Exact(p, cwd, piped, now))
    decreases |p|
  {
    FrontOf(p);
    if |p| > 1 {
      var q, next, exact := p[2..], Move(p[0], p[1], now, exits), Exact(p, cwd, piped, now);
      PlainTail(p);
      if p[0].Chdir? {
        Agree(q, DirAfter(p[0], cwd), piped, next, exits);
      } else {
        var x, y := Step(Placed(p[0], cwd), piped), Step(Placed(p[0], now.cwd), now.piped && !p[0].stdin.Named?);
        if p[1].Pipe? {
          Agree(q, cwd, true, next, exits);
          AlikeLater(x, y, Ran(q, next.k, cwd, true, exits), Posix(q, next, exits), exact, Exact(q, cwd, true, next));
        } else {
          OneKind(p);
          if next.run {
            Agree(q, cwd, false, next, exits);
            AlikeLater(x, y, Ran(q, next.k, cwd, false, exits), Posix(q, next, exits), exact,
                       Exact(q, cwd, false, next));
          } else {
            SkipsRest(q, next, p[1].And?, exits);
          }
        }
      }
    }
  }

  lemma OneKind(p: seq<Node>)
    requires |p| > 1 && p[0].Command? && !p[1].Pipe? && Uniform(OpsFromCommand(p))
    ensures AllAre(AllOps(p[2..]), p[1].And?) && Uniform(OpsFromCommand(p[2..]))
  {
    AllAreTail(p, p[1].And?);
    AllAreTail(p, !p[1].And?);
    FromCommandWithin(p[2..], p[1].And?);
  }

  // ---------- disagreement ----------

  lemma {:induction false} RunStarts(p: seq<Node>, now: Now, exits: nat -> int)
    requires WellFormed(p) && Runnable(p) && now.run
    ensures Posix(p, now, exits).started != []
    decreases |p|
  {
    FrontOf(p);
    if p[0].Chdir? {
      RunnableTail(p);
      RunStarts(p[2..], Move(p[0], p[1], now, exits), exits);
    }
  }

  /** POSIX goes on at the first operator of the other kind. */
  lemma {:induction false} Resumes(p: seq<Node>, now: Now, op: bool, exits: nat -> int)
    requires WellFormed(p) && Runnable(p) && !AllAre(AllOps(p), op) && Stops(op, now.status) && !now.run
    ensures Posix(p, now, exits).started != []
    decreases |p|
  {
    FrontOf(p);
    if |p| > 1 {
      RunnableTail(p);
      AllAreTail(p, op);
      var next := Move(p[0], p[1], now, exits);
      if next.run {
        RunStarts(p[2..], next, exits);
      } else {
        Resumes(p[2..], next, op, exits);
      }
    }
  }

  /** When every command's code stops the run at the first operator after a
      command, POSIX starts more commands than run. */
  lemma {:induction false} PosixStartsMore(p: seq<Node>, cwd: string, piped: bool, now: Now, op: bool,
                                           exits: nat -> int)
    requires WellFormed(p) && Runnable(p) && !AllAre(OpsFromCommand(p), op) && OpsFromCommand(p)[0] == op && now.run
    requires forall i: nat :: Stops(op, exits(i))
    ensures |Ran(p, now.k, cwd, piped, exits).started| < |Posix(p, now, exits).started|
    decreases |p|
  {
    FrontOf(p);
    if |p| > 1 {
      RunnableTail(p);
      var q, next := p[2..], Move(p[0], p[1], now, exits);
      if p[0].Chdir? {
        PosixStartsMore(q, DirAfter(p[0], cwd), piped, next, op, exits);
      } else if p[1].Pipe? {
        PosixStartsMore(q, cwd, true, next, op, exits);
      } else {
        AllAreTail(p, op);
        Resumes(q, next, op, exits);
      }
    }
  }

  /** Exit codes with which run starts fewer commands than POSIX asks for. */
  lemma MixedDiffer(p: seq<Node>) returns (exits: nat -> int)
    requires WellFormed(p) && Runnable(p) && !Uniform(OpsFromCommand(p))
    ensures Meaning(p, exits).Returned? && |Meaning(p, exits).launches| < |PosixRun(p, exits).started|
  {
    var op := OpsFromCommand(p)[0];
    exits := if op then _ => 1 else _ => 0;
    PosixStartsMore(p, ".", false, BEGIN, op, exits);
    RunIsRan(p, exits);
  }

  ghost predicate PipesDiffer(a: seq<Step>, b: seq<Step>) {
    |a| != |b| || exists i :: 0 <= i < |a| && a[i].piped != b[i].piped
  }

  lemma DifferLater(x: Step, y: Step, a: Trace, b: Trace)
    requires PipesDiffer(a.started, b.started)
    ensures PipesDiffer(Before(x, a).started, Before(y, b).started)
  {
    if |a.started| == |b.started| {
      var i :| 0 <= i < |a.started| && a.started[i].piped != b.started[i].piped;
      assert Before(x, a).started[i + 1].piped != Before(y, b).started[i + 1].piped;
    }
  }

  /** A command whose code lets both go on. */
  lemma GoesOn(p: seq<Node>, cwd: string, piped: bool, now: Now, op: bool, exits: nat -> int)
    requires |p| > 1 && LinkOk(p[0], p[1]) && p[0].Command? && now.run && !Stops(op, exits(now.k))
    requires !p[1].Pipe? ==> p[1].And? == op
    ensures var next, c := Move(p[0], p[1], now, exits), p[0];
      && next.run && next.piped == p[1].Pipe? && next.k == now.k + 1
      && Ran(p, now.k, cwd, piped, exits) ==
         Before(Step(Placed(c, cwd), piped), Ran(p[2..], next.k, cwd, p[1].Pipe?, exits))
      && Posix(p, now, exits) ==
         Before(Step(Placed(c, now.cwd), now.piped && !c.stdin.Named?), Posix(p[2..], next, exits))
  {
  }

  /** When every command's code lets the run go on, a cd or an input file after
      a pipe sign shows. */
  lemma {:induction false} ReadsDiffer(p: seq<Node>, cwd: string, piped: bool, now: Now, op: bool, exits: nat -> int)
    requires WellFormed(p) && Runnable(p) && AllAre(OpsFromCommand(p), op) && now.run
    requires forall i: nat :: !Stops(op, exits(i))
    requires !PlainPipes(p) || !PlainAfter(p, piped) || (piped && !now.piped)
    ensures PipesDiffer(Ran(p, now.k, cwd, piped, exits).started, Posix(p, now, exits).started)
    decreases |p|
  {
    FrontOf(p);
    var a, b := Ran(p, now.k, cwd, piped, exits), Posix(p, now, exits);
    if p[0].Command? && piped && (p[0].stdin.Named? || !now.piped) {
      assert a.started[0].piped != b.started[0].piped;
    } else if |p| > 1 {
      var q, next := p[2..], Move(p[0], p[1], now, exits);
      RunnableTail(p);
      PlainTail(p);
      if p[0].Chdir? {
        ReadsDiffer(q, DirAfter(p[0], cwd), piped, next, op, exits);
      } else {
        if !p[1].Pipe? {
          AllAreTail(p, op);
          FromCommandWithin(q, op);
        }
        GoesOn(p, cwd, piped, now, op, exits);
        ReadsDiffer(q, cwd, p[1].Pipe?, next, op, exits);
        DifferLater(Step(Placed(p[0], cwd), piped), Step(Placed(p[0], now.cwd), now.piped && !p[0].stdin.Named?),
                    Ran(q, next.k, cwd, p[1].Pipe?, exits), Posix(q, next, exits));
      }
    }
  }

  // ---------- exactly when ----------

  /** run starts the commands that POSIX asks for and returns the same status,
      for all exit codes, exactly when run cannot fail and only one of && and
      || occurs from the first operator after a command on. */
  lemma SameCommandsIff(p: seq<Node>)
    requires WellFormed(p)
    ensures (forall exits :: SameCommands(p, exits)) <==> Runnable(p) && Uniform(OpsFromCommand(p))
  {
    RunSafeIff(p);
    if Runnable(p) {
      if Uniform(OpsFromCommand(p)) {
        forall exits ensures SameCommands(p, exits) {
          RunIsRan(p, exits);
          Agree(p, ".", false, BEGIN, exits);
        }
      } else {
        var exits := MixedDiffer(p);
        assert !SameCommands(p, exits);
      }
    } else {
      var exits :| !Meaning(p, exits).Returned?;
      assert !SameCommands(p, exits);
    }
  }

  /** Directories and pipes agree as well exactly when, in addition, every pipe
      sign is followed by a command that names no input file. */
  lemma PosixIff(p: seq<Node>)
    requires WellFormed(p)
    ensures (forall exits :: SameRun(p, exits)) <==>
            Runnable(p) && Uniform(OpsFromCommand(p)) && PlainPipes(p)
  {
    SameCommandsIff(p);
    if exits :| !SameCommands(p, exits) {
      SameRunCommands(p, exits);
      assert !SameRun(p, exits);
    } else if PlainPipes(p) {
      forall exits ensures SameRun(p, exits) {
        RunIsRan(p, exits);
        Agree(p, ".", false, BEGIN, exits);
      }
    } else {
      var op :| AllAre(OpsFromCommand(p), op);
      var exits: nat -> int := if op then _ => 0 else _ => 1;
      ReadsDiffer(p, ".", false, BEGIN, op, exits);
      RunIsRan(p, exits);
      NotSameStart(Meaning(p, exits).launches, Ran(p, 0, ".", false, exits).started, PosixRun(p, exits).started);
      assert !SameRun(p, exits);
    }
  }

  lemma SameRunCommands(p: seq<Node>, exits: nat -> int)
    ensures SameRun(p, exits) ==> SameCommands(p, exits)
  {
  }

  lemma NotSameStart(ls: seq<Launch>, a: seq<Step>, b: seq<Step>)
    requires AllSameStart(ls, a) && PipesDiffer(a, b)
    ensures !AllSameStart(ls, b)
  {
    if |a| == |b| {
      var i :| 0 <= i < |a| && a[i].piped != b[i].piped;
      assert SameStart(ls[i], a[i]) && !SameStart(ls[i], b[i]);
    }
  }

  /** In `a || cd dir && b` the && after the cd counts, too: when a succeeds,
      POSIX goes on to b and run does not. */
  lemma CdInTheMiddle(a: Node, b: Node, dir: string, p: seq<Node>, exits: nat -> int)
    requires a.Command? && OperandOk(a) && LastOk(a) && b.Command? && LastOk(b) && dir != "&&"
    requires p == [a, Or, Chdir(Some(dir)), And, b] && exits(0) == 0
    ensures WellFormed(p) && Runnable(p)
    ensures |Meaning(p, exits).launches| == 1 && |PosixRun(p, exits).started| == 2
  {
    var q, r := p[2..], p[4..];
    assert p[..4] == [] + [a, Or] + [Chdir(Some(dir)), And];
    OpenSnoc([], a, Or);
    OpenSnoc([a, Or], Chdir(Some(dir)), And);
    assert q[2..] == r && r == [b];
    RunIsRan(p, exits);
    assert Ran(p, 0, ".", false, exits).started == [Step(Placed(a, "."), false)];
    var next := Move(a, Or, BEGIN, exits);
    assert Posix(r, Move(q[0], q[1], next, exits), exits).started != [];
    assert |Posix(q, next, exits).started| == 1;
  }
}
