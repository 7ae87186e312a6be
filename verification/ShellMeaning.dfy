/** Properties of running a parsed pipeline of waf-tools/shellcmd.py. */
module ShellMeaning {
  import opened Basics
  import opened ShellSyntax
  import opened ShellScript
  import opened ShellPipeline

  // ---------- and-or lists ----------

  /** Which groups of an and-or list run, and the status of the list. */
  datatype AndOr = AndOr(ran: seq<bool>, status: int)

  function Prefixed(b: bool, r: AndOr): AndOr {
    AndOr([b] + r.ran, r.status)
  }

  function Falses(n: nat): seq<bool> {
    seq(n, i => false)
  }

  /** Right-associative evaluation with short circuit: codes are the statuses
      the groups would have, ops tells && (true) from || (false). */
  function RightAssoc(codes: seq<int>, ops: seq<bool>): AndOr
    requires |codes| == |ops| + 1
    decreases |ops|
  {
    if ops == [] || Stops(ops[0], codes[0]) then AndOr([true] + Falses(|ops|), codes[0])
    else Prefixed(true, RightAssoc(codes[1..], ops[1..]))
  }

  // ---------- which pipelines run without an error ----------

  /** A part of a group at which run does not fail. */
  ghost predicate SafeAt(g: seq<Node>, i: nat)
    requires i < |g|
  {
    g[i].Command? || (g[i].Chdir? && g[i].dir.Some? && i + 1 < |g|)
  }

  ghost predicate GroupSafe(g: seq<Node>) {
    forall i: nat {:trigger SafeAt(g, i)} :: i < |g| ==> SafeAt(g, i)
  }

  lemma GroupSafeTail(g: seq<Node>)
    requires g != []
    ensures GroupSafe(g) <==> SafeAt(g, 0) && GroupSafe(g[1..])
  {
    var t := g[1..];
    if GroupSafe(g) {
      assert SafeAt(g, 0);
      forall i: nat | i < |t| ensures SafeAt(t, i) {
        assert SafeAt(g, i + 1);
      }
    }
    if SafeAt(g, 0) && GroupSafe(t) {
      forall i: nat | i < |g| ensures SafeAt(g, i) {
        if i > 0 {
          assert SafeAt(t, i - 1);
        }
      }
    }
  }

  ghost predicate Safe(s: Script) {
    GroupSafe(s.group) && s.group != [] && (s.Then? ==> Safe(s.rest))
  }

  /** It ends with a command and every cd names a directory. */
  ghost predicate Runnable(p: seq<Node>) {
    p != [] && p[|p| - 1].Command? && forall i :: 0 <= i < |p| && p[i].Chdir? ==> p[i].dir.Some?
  }

  lemma PrependSafe(n: Node, s: Script)
    requires (n.Command? || n.Chdir?) && s.group != []
    ensures Safe(Prepend(n, s)) <==> Safe(s) && (n.Chdir? ==> n.dir.Some?)
  {
    var g := [n] + s.group;
    assert g[1..] == s.group;
    GroupSafeTail(g);
  }

  lemma SingleSafe(n: Node)
    ensures GroupSafe([n]) <==> n.Command?
  {
    GroupSafeTail([n]);
  }

  lemma RunnableTail(p: seq<Node>)
    requires |p| >= 3 && !p[1].Chdir?
    ensures Runnable(p) <==> Runnable(p[2..]) && (p[0].Chdir? ==> p[0].dir.Some?)
  {
    var q := p[2..];
    assert forall i :: 0 <= i < |q| ==> q[i] == p[i + 2];
    assert forall i :: 2 <= i < |p| ==> p[i] == q[i - 2];
  }

  lemma {:induction false} RunnableSafe(p: seq<Node>)
    requires WellFormed(p)
    ensures Safe(ToScript(p)) <==> Runnable(p)
    decreases |p|
  {
    FrontOf(p);
    SingleSafe(p[0]);
    if |p| == 1 {
      assert p == [p[0]];
    } else {
      var q := p[2..];
      RunnableSafe(q);
      RunnableTail(p);
      if p[0].Chdir? || p[1].Pipe? {
        PrependSafe(p[0], ToScript(q));
      }
    }
  }

  // ---------- one group ----------

  /** A command and the directory it is run in. */
  datatype Placed = Placed(cmd: Node, cwd: string)

  /** The commands of a group, each in the directory that the cd's before it
      lead to. */
  ghost function Commands(g: seq<Node>, cwd: string): seq<Placed> {
    if g == [] then []
    else if g[0].Command? then [Placed(g[0], cwd)] + Commands(g[1..], cwd)
    else if g[0].Chdir? && g[0].dir.Some? then Commands(g[1..], JoinPath(cwd, g[0].dir.value))
    else []
  }

  ghost function CwdAfter(g: seq<Node>, cwd: string): string {
    if g == [] then cwd
    else if g[0].Chdir? && g[0].dir.Some? then CwdAfter(g[1..], JoinPath(cwd, g[0].dir.value))
    else CwdAfter(g[1..], cwd)
  }

  ghost predicate SinkFor(r: Redirect, s: Sink) {
    match r
    case Inherit => s.InheritOut?
    case ToPipe => s.PipeOut?
    case ToStdout => s.SameAsStdout?
    case Named(name) =>
      s.IntoFile? && if name in ["NUL:", "/dev/null"] then s.file.DevNull?
                     else s.file.File? && s.file.name == name && s.file.writing
  }

  ghost predicate SourceFor(r: Redirect, s: Source) {
    s.FromProcess? || if r.Named? then s.FromFile? && s.file.File? && s.file.name == r.name && !s.file.writing
                      else s.InheritIn?
  }

  /** The process was started for this command: its words, its environment, its
      directory, its files. */
  ghost predicate Starts(l: Launch, c: Placed) {
    && c.cmd.Command? && l.argv == [c.cmd.name] + c.cmd.args && l.env == c.cmd.env
    && l.cwd == (if c.cwd == "." then None else Some(c.cwd))
    && SourceFor(c.cmd.stdin, l.stdin) && SinkFor(c.cmd.stdout, l.stdout) && SinkFor(c.cmd.stderr, l.stderr)
  }

  ghost predicate AllStart(ls: seq<Launch>, cs: seq<Placed>) {
    |ls| == |cs| && forall i :: 0 <= i < |ls| ==> Starts(ls[i], cs[i])
  }

  lemma StartStarts(m: Machine, c: Node)
    requires c.Command?
    ensures var r := Start(m, c);
      && r.cwd == m.cwd && |r.launches| == |m.launches| + 1 && m.launches <= r.launches
      && r.procs == m.procs + [|m.launches|] && Starts(r.launches[|m.launches|], Placed(c, m.cwd))
  {
  }

  lemma StartFirst(some: seq<Launch>, all: seq<Launch>, n: nat, c: Placed, cs: seq<Placed>)
    requires |some| == n + 1 && some <= all && Starts(some[n], c) && AllStart(all[n + 1..], cs)
    ensures AllStart(all[n..], [c] + cs)
  {
    assert all[n..] == [some[n]] + all[n + 1..];
  }

  /** Running a safe group starts exactly its commands, in order, and leaves
      the number of the last one at the end of procs. */
  lemma {:induction false} GroupStarts(g: seq<Node>, m: Machine)
    requires GroupSafe(g)
    ensures ExecGroup(g, m).Done?
    ensures var r := ExecGroup(g, m).machine; var n := |m.launches|;
      && m.launches <= r.launches && AllStart(r.launches[n..], Commands(g, m.cwd))
      && r.cwd == CwdAfter(g, m.cwd)
      && if |r.launches| == n then r.procs == m.procs else r.procs != [] && r.procs[|r.procs| - 1] == |r.launches| - 1
    decreases |g|
  {
    var n := |m.launches|;
    if g == [] {
      assert m.launches[n..] == [];
    } else {
      GroupSafeTail(g);
      if g[0].Chdir? {
        GroupStarts(g[1..], m.(cwd := JoinPath(m.cwd, g[0].dir.value)));
      } else {
        var m1, c := Start(m, g[0]), Placed(g[0], m.cwd);
        StartStarts(m, g[0]);
        GroupStarts(g[1..], m1);
        StartFirst(m1.launches, ExecGroup(g, m).machine.launches, n, c, Commands(g[1..], m.cwd));
      }
    }
  }

  lemma {:induction false} GroupHasCommand(g: seq<Node>, cwd: string)
    requires GroupSafe(g) && g != []
    ensures Commands(g, cwd) != []
    decreases |g|
  {
    GroupSafeTail(g);
    if !g[0].Command? {
      GroupHasCommand(g[1..], JoinPath(cwd, g[0].dir.value));
    }
  }

  // ---------- the whole run ----------

  ghost function Ops(s: Script): seq<bool> {
    if s.Last? then [] else [s.isAnd] + Ops(s.rest)
  }

  /** The number of the first command after the first group. */
  ghost function GroupEnd(s: Script, n: nat): nat {
    n + |Commands(s.group, "")|
  }

  function CodeBefore(k: nat, exits: nat -> int): int {
    if k > 0 then exits(k - 1) else 0
  }

  /** The statuses of the groups when the k-th command of the pipeline, counted
      from n, exits with exits(k): each group's status is its last command's
      (section 2.9.2 of the POSIX.1-2017 Shell Command Language). */
  ghost function Codes(s: Script, n: nat, exits: nat -> int): (codes: seq<int>)
    ensures |codes| == |Ops(s)| + 1
  {
    var k := GroupEnd(s, n);
    [CodeBefore(k, exits)] + if s.Last? then [] else Codes(s.rest, k, exits)
  }

  lemma {:induction false} CommandsLength(g: seq<Node>, a: string, b: string)
    ensures |Commands(g, a)| == |Commands(g, b)|
    decreases |g|
  {
    if g != [] {
      if g[0].Command? {
        CommandsLength(g[1..], a, b);
      } else if g[0].Chdir? && g[0].dir.Some? {
        CommandsLength(g[1..], JoinPath(a, g[0].dir.value), JoinPath(b, g[0].dir.value));
      }
    }
  }

  /** The commands of the groups that run. */
  ghost function RanCommands(s: Script, cwd: string, ran: seq<bool>): seq<Placed> {
    if ran == [] || !ran[0] then []
    else Commands(s.group, cwd)
         + if s.Last? then [] else RanCommands(s.rest, CwdAfter(s.group, cwd), ran[1..])
  }

  lemma StartJoin(ls: seq<Launch>, a: nat, b: nat, cs: seq<Placed>, ds: seq<Placed>)
    requires a <= b <= |ls| && AllStart(ls[a..b], cs) && AllStart(ls[b..], ds)
    ensures AllStart(ls[a..], cs + ds)
  {
    assert ls[a..] == ls[a..b] + ls[b..];
  }

  lemma RanOne(s: Script, cwd: string, n: nat)
    ensures RanCommands(s, cwd, [true] + Falses(n)) == Commands(s.group, cwd)
  {
    assert ([true] + Falses(n))[1..] == Falses(n);
    assert n > 0 ==> !Falses(n)[0];
  }

  ghost function Evaluate(s: Script, n: nat, exits: nat -> int): AndOr {
    RightAssoc(Codes(s, n, exits), Ops(s))
  }

  /** The statuses of the groups of a script that goes on after its first group. */
  lemma GoOn(s: Script, n: nat, exits: nat -> int, k: nat, code: int)
    requires s.Then? && k == GroupEnd(s, n) && code == CodeBefore(k, exits)
    ensures Stops(s.isAnd, code) ==> Evaluate(s, n, exits) == AndOr([true] + Falses(|Ops(s)|), code)
    ensures !Stops(s.isAnd, code) ==> Evaluate(s, n, exits) == Prefixed(true, Evaluate(s.rest, k, exits))
  {
    assert Codes(s, n, exits) == [code] + Codes(s.rest, k, exits);
    assert Ops(s) == [s.isAnd] + Ops(s.rest);
    Unfold(code, Codes(s.rest, k, exits), s.isAnd, Ops(s.rest));
  }

  lemma Unfold(code: int, codes: seq<int>, op: bool, ops: seq<bool>)
    requires |codes| == |ops| + 1
    ensures RightAssoc([code] + codes, [op] + ops) ==
            if Stops(op, code) then AndOr([true] + Falses(|ops| + 1), code) else Prefixed(true, RightAssoc(codes, ops))
  {
    assert ([code] + codes)[1..] == codes && ([op] + ops)[1..] == ops;
  }

  /** The case in which the run goes on after the first group. */
  lemma Continue(s: Script, m: Machine, end: Machine, o: Outcome, t: AndOr)
    requires s.Then? && !o.Nothing? && m.launches <= end.launches <= o.launches && end.cwd == CwdAfter(s.group, m.cwd)
    requires AllStart(end.launches[|m.launches|..], Commands(s.group, m.cwd))
    requires AllStart(o.launches[|end.launches|..], RanCommands(s.rest, end.cwd, t.ran))
    ensures AllStart(o.launches[|m.launches|..], RanCommands(s, m.cwd, Prefixed(true, t).ran))
  {
    assert Prefixed(true, t).ran[1..] == t.ran;
    assert o.launches[|m.launches|..|end.launches|] == end.launches[|m.launches|..];
    StartJoin(o.launches, |m.launches|, |end.launches|, Commands(s.group, m.cwd), RanCommands(s.rest, end.cwd, t.ran));
  }

  lemma {:induction false} ExecIsRightAssoc(s: Script, m: Machine, exits: nat -> int)
    requires Safe(s) && m.procs == []
    ensures var o := Exec(s, m, exits); var r := Evaluate(s, |m.launches|, exits);
      && o.Returned? && o.status == r.status && m.launches <= o.launches
      && AllStart(o.launches[|m.launches|..], RanCommands(s, m.cwd, r.ran))
    decreases s
  {
    var n := |m.launches|;
    GroupStarts(s.group, m);
    GroupHasCommand(s.group, m.cwd);
    CommandsLength(s.group, m.cwd, "");
    var m1 := ExecGroup(s.group, m).machine;
    var end, code := Finish(m1), exits(|m1.launches| - 1);
    assert GroupStatus(m1.procs, exits) == code;
    var r := Evaluate(s, n, exits);
    RanOne(s, m.cwd, |Ops(s)|);
    if s.Then? {
      GoOn(s, n, exits, |m1.launches|, code);
      if !Stops(s.isAnd, code) {
        ExecIsRightAssoc(s.rest, end, exits);
        Continue(s, m, end, Exec(s, m, exits), Evaluate(s.rest, |end.launches|, exits));
      }
    }
  }

  /** Running a runnable pipeline returns the status of its right-associative
      short-circuit evaluation over groups and starts exactly the commands of
      the groups that this evaluation runs. */
  lemma RunMeansRightAssoc(p: seq<Node>, exits: nat -> int)
    requires WellFormed(p) && Runnable(p)
    ensures var s, o := ToScript(p), Meaning(p, exits);
      var r := Evaluate(s, 0, exits);
      o.Returned? && o.status == r.status && AllStart(o.launches, RanCommands(s, ".", r.ran))
  {
    RunnableSafe(p);
    ExecIsRightAssoc(ToScript(p), INIT, exits);
    var o := Meaning(p, exits);
    assert o.launches[0..] == o.launches;
  }

  // ---------- exactly when run cannot fail ----------

  lemma {:induction false} UnsafeGroupFails(g: seq<Node>, m: Machine)
    requires g != [] && !GroupSafe(g) && forall i :: 0 <= i < |g| ==> g[i].Command? || g[i].Chdir?
    ensures ExecGroup(g, m).Failed?
    decreases |g|
  {
    GroupSafeTail(g);
    if g[0].Command? {
      UnsafeGroupFails(g[1..], Start(m, g[0]));
    } else if |g| > 1 && g[0].dir.Some? {
      UnsafeGroupFails(g[1..], m.(cwd := JoinPath(m.cwd, g[0].dir.value)));
    }
  }

  ghost predicate OperandGroups(s: Script) {
    && s.group != [] && (forall i :: 0 <= i < |s.group| ==> s.group[i].Command? || s.group[i].Chdir?)
    && (s.Then? ==> OperandGroups(s.rest))
  }

  lemma {:induction false} ScriptOperands(p: seq<Node>)
    requires WellFormed(p)
    ensures OperandGroups(ToScript(p))
    decreases |p|
  {
    FrontOf(p);
    if |p| > 1 {
      ScriptOperands(p[2..]);
    }
  }

  /** Exit codes of commands started earlier do not matter. */
  lemma {:induction false} OnlyLaterExits(s: Script, m: Machine, e1: nat -> int, e2: nat -> int)
    requires m.procs == [] && forall k: nat :: k >= |m.launches| ==> e1(k) == e2(k)
    ensures Exec(s, m, e1) == Exec(s, m, e2)
    decreases s
  {
    ProcsAreNew(s.group, m, |m.launches|);
    var r := ExecGroup(s.group, m);
    if r.Done? && s.Then? {
      OnlyLaterExits(s.rest, Finish(r.machine), e1, e2);
    }
  }

  lemma {:induction false} ProcsAreNew(g: seq<Node>, m: Machine, n: nat)
    requires n <= |m.launches| && forall k :: 0 <= k < |m.procs| ==> n <= m.procs[k] < |m.launches|
    ensures var r := ExecGroup(g, m).machine;
      |m.launches| <= |r.launches| && forall k :: 0 <= k < |r.procs| ==> n <= r.procs[k] < |r.launches|
    decreases |g|
  {
    if g != [] {
      if g[0].Command? {
        StartStarts(m, g[0]);
        ProcsAreNew(g[1..], Start(m, g[0]), n);
      } else if g[0].Chdir? && |g| > 1 && g[0].dir.Some? {
        ProcsAreNew(g[1..], m.(cwd := JoinPath(m.cwd, g[0].dir.value)), n);
      }
    }
  }

  /** Exit codes that lead a run into its first unsafe group. */
  lemma {:induction false} Reach(s: Script, m: Machine) returns (exits: nat -> int)
    requires OperandGroups(s) && !Safe(s) && m.procs == []
    ensures Exec(s, m, exits).Raised?
    decreases s
  {
    if !GroupSafe(s.group) {
      UnsafeGroupFails(s.group, m);
      exits := k => 0;
    } else {
      GroupStarts(s.group, m);
      ProcsAreNew(s.group, m, |m.launches|);
      GroupHasCommand(s.group, m.cwd);
      var r := ExecGroup(s.group, m).machine;
      var later := Reach(s.rest, Finish(r));
      var last, code := r.procs[|r.procs| - 1], if s.isAnd then 0 else 1;
      exits := (k: nat) => if k == last then code else later(k);
      OnlyLaterExits(s.rest, Finish(r), exits, later);
    }
  }

  /** A parsed pipeline runs to a return for all exit codes of its commands
      exactly when it ends with a command and every cd has a directory. */
  lemma RunSafeIff(p: seq<Node>)
    requires WellFormed(p)
    ensures (forall exits :: Meaning(p, exits).Returned?) <==> Runnable(p)
  {
    RunnableSafe(p);
    if Runnable(p) {
      forall exits ensures Meaning(p, exits).Returned? {
        RunMeansRightAssoc(p, exits);
      }
    } else {
      ScriptOperands(p);
      var exits := Reach(ToScript(p), INIT);
      assert !Meaning(p, exits).Returned?;
    }
  }
}
