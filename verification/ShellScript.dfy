/** What a pipeline of waf-tools/shellcmd.py means when it is run: groups of
    commands joined by pipes, combined right-associatively by && and ||. */
module ShellScript {
  import opened Basics
  import opened ShellSyntax

  // ---------- the structure of a pipeline ----------

  /** A group holds the commands and cd's up to the next && or || that follows
      a command; rest is everything after that operator. */
  datatype Script = Last(group: seq<Node>) | Then(group: seq<Node>, isAnd: bool, rest: Script)

  function Prepend(n: Node, s: Script): Script {
    match s
    case Last(g) => Last([n] + g)
    case Then(g, isAnd, rest) => Then([n] + g, isAnd, rest)
  }

  /** The && after a cd and the pipe signs join the parts of one group. */
  function ToScript(p: seq<Node>): (s: Script)
    ensures p != [] ==> s.group != []
    decreases |p|
  {
    if |p| <= 1 then Last(p)
    else if p[0].Chdir? || p[1].Pipe? then Prepend(p[0], ToScript(p[2..]))
    else Then([p[0]], p[1].And?, ToScript(p[2..]))
  }

  // ---------- the machine ----------

  /** An open file; DevNull is the one object that is never opened or closed. */
  datatype File = File(id: nat, name: string, writing: bool) | DevNull

  datatype Source = InheritIn | FromFile(file: File) | FromProcess(proc: nat)
  datatype Sink = InheritOut | PipeOut | SameAsStdout | IntoFile(file: File)

  /** The arguments of a subprocess.Popen call. */
  datatype Launch = Launch(argv: seq<string>, stdin: Source, stdout: Sink, stderr: Sink,
                           env: map<string, string>, cwd: Option<string>)

  datatype Event = Opened(file: File) | Started(proc: nat) | Waited(proc: nat) | Closed(file: File)

  /** The variables of run: the working directory, the processes of the group
      under way and the files to close after it; and what has been done so
      far: all launches, the number of files opened, and the log. */
  datatype Machine = Machine(cwd: string, procs: seq<nat>, toClose: seq<File>,
                             launches: seq<Launch>, files: nat, log: seq<Event>)

  const INIT := Machine(".", [], [], [], 0, [])

  datatype Error = IndexError | TypeError

  datatype Outcome =
    | Returned(status: int, launches: seq<Launch>, log: seq<Event>)
    | Raised(error: Error, launches: seq<Launch>, log: seq<Event>)
    | Nothing  // run of a pipeline that was never parsed

  /** os.path.join on POSIX. */
  function JoinPath(a: string, b: string): string {
    if b != [] && b[0] == '/' then b
    else if a == [] || a[|a| - 1] == '/' then a + b
    else a + "/" + b
  }

  predicate IsNullDevice(name: string) {
    name == "NUL:" || name == "/dev/null"
  }

  function OpenFile(m: Machine, f: File): Machine {
    if f.DevNull? then m.(toClose := m.toClose + [f])
    else m.(toClose := m.toClose + [f], files := m.files + 1, log := m.log + [Opened(f)])
  }

  function OutFile(m: Machine, name: string): File {
    if IsNullDevice(name) then DevNull else File(m.files, name, true)
  }

  /** Standard input: the previous command of the group, else a file if one is
      named.  After a pipe sign a file name is ignored. */
  function OpenIn(m: Machine, r: Redirect): (Source, Machine) {
    if m.procs != [] then (FromProcess(m.procs[|m.procs| - 1]), m)
    else if r.Named? then (FromFile(File(m.files, r.name, false)), OpenFile(m, File(m.files, r.name, false)))
    else (InheritIn, m)
  }

  function OpenOut(m: Machine, r: Redirect): (Sink, Machine) {
    match r
    case Inherit => (InheritOut, m)
    case ToPipe => (PipeOut, m)
    case ToStdout => (SameAsStdout, m)
    case Named(name) => (IntoFile(OutFile(m, name)), OpenFile(m, OutFile(m, name)))
  }

  /** Starting one command. */
  function Start(m: Machine, c: Node): Machine
    requires c.Command?
  {
    var (stdin, m1) := OpenIn(m, c.stdin);
    var (stdout, m2) := OpenOut(m1, c.stdout);
    var (stderr, m3) := OpenOut(m2, c.stderr);
    var launch := Launch([c.name] + c.args, stdin, stdout, stderr, c.env, if m.cwd == "." then None else Some(m.cwd));
    var k := |m.launches|;
    m3.(launches := m.launches + [launch], procs := m.procs + [k], log := m3.log + [Started(k)])
  }

  datatype GroupResult = Done(machine: Machine) | Failed(error: Error, machine: Machine)

  /** Running the parts of a group from left to right.  A cd with nothing after
      it finds no operator to pop; a cd without a directory cannot be joined. */
  function ExecGroup(g: seq<Node>, m: Machine): GroupResult {
    if g == [] then Done(m)
    else match g[0]
      case Command(_, _, _, _, _, _) => ExecGroup(g[1..], Start(m, g[0]))
      case Chdir(dir) =>
        if |g| == 1 then Failed(IndexError, m)
        else if dir.None? then Failed(TypeError, m)
        else ExecGroup(g[1..], m.(cwd := JoinPath(m.cwd, dir.value)))
      case _ => Done(m)
  }

  /** The status of a group is that of its last command. */
  function GroupStatus(procs: seq<nat>, exits: nat -> int): int {
    if procs == [] then 0 else exits(procs[|procs| - 1])
  }

  function Waits(procs: seq<nat>): seq<Event> {
    seq(|procs|, i requires 0 <= i < |procs| => Waited(procs[i]))
  }

  function Closes(files: seq<File>): seq<Event> {
    if files == [] then [] else
    var n := |files| - 1;
    Closes(files[..n]) + if files[n].DevNull? then [] else [Closed(files[n])]
  }

  /** Waiting for the group's processes and closing its files. */
  function Finish(m: Machine): Machine {
    m.(procs := [], toClose := [], log := m.log + Waits(m.procs) + Closes(m.toClose))
  }

  /** Does a group with this status end the whole run? */
  predicate Stops(isAnd: bool, status: int) {
    if isAnd then status != 0 else status == 0
  }

  function Exec(s: Script, m: Machine, exits: nat -> int): (o: Outcome)
    ensures !o.Nothing?
    decreases s
  {
    match ExecGroup(s.group, m)
    case Failed(error, m') => Raised(error, m'.launches, m'.log)
    case Done(m') =>
      var status, end := GroupStatus(m'.procs, exits), Finish(m');
      if s.Last? || Stops(s.isAnd, status) then Returned(status, end.launches, end.log)
      else Exec(s.rest, end, exits)
  }

  /** The run of a parsed pipeline when the k-th command started exits with
      exits(k). */
  function Meaning(p: seq<Node>, exits: nat -> int): Outcome {
    if p == [] then Nothing else Exec(ToScript(p), INIT, exits)
  }
}
