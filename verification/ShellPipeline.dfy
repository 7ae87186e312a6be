/** The class Pipeline of waf-tools/shellcmd.py. */
module ShellPipeline {
  import opened Basics
  import opened ShellSyntax
  import opened ShellScript

  /** What a well-formed pipeline looks like from the front. */
  lemma FrontOf(p: seq<Node>)
    requires WellFormed(p)
    ensures |p| == 1 ==> LastOk(p[0])
    ensures |p| > 1 ==> |p| >= 3 && LinkOk(p[0], p[1]) && WellFormed(p[2..])
  {
    if |p| > 1 {
      var q, n := p[..|p| - 1], |p| - 3;
      assert LinkAt(q, 0);
      assert p[2..][..n] == q[2..];
      forall k: nat | 2 * k + 1 < |q[2..]| ensures LinkAt(q[2..], k) {
        assert LinkAt(q, k + 1);
      }
    }
  }

  lemma ExecCd(dir: string, s: Script, m: Machine, exits: nat -> int)
    requires s.group != []
    ensures Exec(Prepend(Chdir(Some(dir)), s), m, exits) == Exec(s, m.(cwd := JoinPath(m.cwd, dir)), exits)
  {
    assert ([Chdir(Some(dir))] + s.group)[1..] == s.group;
  }

  lemma ExecPipe(c: Node, s: Script, m: Machine, exits: nat -> int)
    requires c.Command?
    ensures Exec(Prepend(c, s), m, exits) == Exec(s, Start(m, c), exits)
  {
    assert ([c] + s.group)[1..] == s.group;
  }

  lemma ExecSingle(c: Node, m: Machine)
    requires c.Command?
    ensures ExecGroup([c], m) == Done(Start(m, c))
  {
    assert [c][1..] == [];
  }

  class Pipeline {
    var currentCommand: Option<Node>
    var pipeline: seq<Node>

    constructor ()
      ensures currentCommand == None && pipeline == []
    {
      currentCommand := None;
      pipeline := [];
    }

    /** False where the assert of the source fails. */
    method CommitCommand() returns (ok: bool)
      modifies this
      ensures ok <==> old(currentCommand).Some?
      ensures ok ==> pipeline == old(pipeline) + [old(currentCommand).value] && currentCommand == None
      ensures !ok ==> pipeline == old(pipeline) && currentCommand == None
    {
      if currentCommand.None? {
        return false;
      }
      pipeline := pipeline + [currentCommand.value];
      currentCommand := None;
      return true;
    }

    /** The parser state held by the object and the local variables of Parse. */
    ghost function Now(mode: Mode, env: map<string, string>): ParseState
      reads this
    {
      ParseState(mode, currentCommand, env, pipeline)
    }

    /** False is an AssertionError. */
    method Parse(tokens: seq<string>) returns (ok: bool)
      modifies this
      ensures ok <==> ShellSyntax.Parse(tokens).Some?
      ensures ok ==> pipeline == ShellSyntax.Parse(tokens).value && currentCommand == None
    {
      currentCommand := None;
      pipeline := [];
      var state, envVars, rest := Begin, map[], tokens;
      while rest != []
        invariant InPlace(Now(state, envVars))
        invariant Feed(Now(state, envVars), rest) == Feed(START, tokens)
        decreases |rest|
      {
        var token := rest[0];
        rest := rest[1..];
        ok, state, envVars := Accept(token, state, envVars);
        if !ok {
          return;
        }
      }
      ok := CommitCommand();
    }

    /** The body of the token loop. */
    method Accept(token: string, mode: Mode, env: map<string, string>)
      returns (ok: bool, state: Mode, envVars: map<string, string>)
      requires InPlace(Now(mode, env))
      modifies this
      ensures ok <==> Token(old(Now(mode, env)), token).Some?
      ensures ok ==> Now(state, envVars) == Token(old(Now(mode, env)), token).value
    {
      ok, state, envVars := true, mode, env;
      match mode
      case Begin =>
        var m := EnvMatch(token);
        if m.Some? {
          envVars := envVars[m.value.0 := m.value.1];
        } else if token == "cd" {
          currentCommand := Some(Chdir(None));
          ok := envVars == map[];
          state := InChdir;
        } else {
          currentCommand := Some(NewCommand(token, envVars));
          envVars := map[];
          state := InCommand;
        }
      case InCommand =>
        var cmd := currentCommand.value;
        if token == ">" {
          state := InStdout;
        } else if token == "2>" {
          state := InStderr;
        } else if token == "2>&1" {
          ok := cmd.stderr.Inherit?;
          currentCommand := Some(cmd.(stderr := ToStdout));
        } else if token == "<" {
          state := InStdin;
        } else if token == "|" {
          if !cmd.stdout.Inherit? {
            ok := false;
            return;
          }
          currentCommand := Some(cmd.(stdout := ToPipe));
          ok := CommitCommand();
          pipeline := pipeline + [Pipe];
          state := Begin;
        } else if token == "&&" {
          ok := CommitCommand();
          pipeline := pipeline + [And];
          state := Begin;
        } else if token == "||" {
          ok := CommitCommand();
          pipeline := pipeline + [Or];
          state := Begin;
        } else {
          currentCommand := Some(cmd.(args := cmd.args + [token]));
        }
      case InChdir =>
        if token == "&&" {
          ok := CommitCommand();
          pipeline := pipeline + [And];
          state := Begin;
        } else {
          ok := currentCommand.value.dir.None?;
          currentCommand := Some(Chdir(Some(token)));
        }
      case InStdout =>
        ok := currentCommand.value.stdout.Inherit?;
        currentCommand := Some(currentCommand.value.(stdout := Named(token)));
        state := InCommand;
      case InStderr =>
        ok := currentCommand.value.stderr.Inherit?;
        currentCommand := Some(currentCommand.value.(stderr := Named(token)));
        state := InCommand;
      case InStdin =>
        ok := currentCommand.value.stdin.Inherit?;
        currentCommand := Some(currentCommand.value.(stdin := Named(token)));
        state := InCommand;
    }

    /** Wait for all the commands; the result is 0 if every one returned 0 and
        else the last one's return code. */
    method ExecPipedCommands(commands: seq<nat>, exits: nat -> int) returns (retval: int, log: seq<Event>)
      ensures retval == GroupStatus(commands, exits)
      ensures log == Waits(commands)
    {
      var retvals: seq<int> := [];
      log := [];
      for i := 0 to |commands|
        invariant |retvals| == i && forall k :: 0 <= k < i ==> retvals[k] == exits(commands[k])
        invariant log == Waits(commands[..i])
      {
        assert commands[..i + 1][..i] == commands[..i];
        retvals := retvals + [exits(commands[i])];
        log := log + [Waited(commands[i])];
      }
      assert commands[..|commands|] == commands;
      retval := 0;
      for i := 0 to |retvals|
        invariant retval == 0 && forall k :: 0 <= k < i ==> retvals[k] == 0
      {
        if retvals[i] != 0 {
          retval := retvals[|retvals| - 1];
          break;
        }
      }
    }

    /** The finally clauses: close every file but the null device. */
    method CloseFiles(files: seq<File>) returns (log: seq<Event>)
      ensures log == Closes(files)
    {
      log := [];
      for i := 0 to |files|
        invariant log == Closes(files[..i])
      {
        assert files[..i + 1][..i] == files[..i];
        if !files[i].DevNull? {
          log := log + [Closed(files[i])];
        }
      }
      assert files[..|files|] == files;
    }

    /** Open the redirections of one command and start it; piped is the state
        variable of the source. */
    method StartCommand(cmd: Node, m: Machine, piped: bool) returns (r: Machine)
      requires cmd.Command? && OperandOk(cmd) && (piped <==> m.procs != [])
      ensures r == Start(m, cmd)
    {
      var stdin, stdout, stderr := InheritIn, InheritOut, InheritOut;
      var filesToClose, files, log := m.toClose, m.files, m.log;
      if piped {
        stdin := FromProcess(m.procs[|m.procs| - 1]);
      } else if cmd.stdin.Named? {
        var f := File(files, cmd.stdin.name, false);
        log, files := log + [Opened(f)], files + 1;
        stdin := FromFile(f);
        filesToClose := filesToClose + [f];
      }
      ghost var m1 := m.(toClose := filesToClose, files := files, log := log);
      assert OpenIn(m, cmd.stdin) == (stdin, m1);
      if cmd.stdout.ToPipe? {
        stdout := PipeOut;
      } else if cmd.stdout.Named? {
        var f := DevNull;
        if !IsNullDevice(cmd.stdout.name) {
          f := File(files, cmd.stdout.name, true);
          log, files := log + [Opened(f)], files + 1;
        }
        stdout := IntoFile(f);
        filesToClose := filesToClose + [f];
      }
      ghost var m2 := m.(toClose := filesToClose, files := files, log := log);
      assert OpenOut(m1, cmd.stdout) == (stdout, m2);
      if cmd.stderr.ToStdout? {
        stderr := SameAsStdout;
      } else if cmd.stderr.Named? {
        var f := DevNull;
        if !IsNullDevice(cmd.stderr.name) {
          f := File(files, cmd.stderr.name, true);
          log, files := log + [Opened(f)], files + 1;
        }
        stderr := IntoFile(f);
        filesToClose := filesToClose + [f];
      }
      assert OpenOut(m2, cmd.stderr) == (stderr, m.(toClose := filesToClose, files := files, log := log));
      var procCwd := if m.cwd == "." then None else Some(m.cwd);
      var proc := |m.launches|;
      r := Machine(m.cwd, m.procs + [proc], filesToClose,
                   m.launches + [Launch([cmd.name] + cmd.args, stdin, stdout, stderr, cmd.env, procCwd)],
                   files, log + [Started(proc)]);
    }

    /** Running a parsed pipeline: exits(k) is the exit code of the k-th command
        that is started. */
    method Run(exits: nat -> int) returns (outcome: Outcome)
      requires pipeline == [] || WellFormed(pipeline)
      ensures outcome == Meaning(pipeline, exits)
    {
      var rest, m, piped := pipeline, INIT, false;
      while rest != []
        invariant rest == [] ==> pipeline == []
        invariant rest != [] ==> WellFormed(rest) && Exec(ToScript(rest), m, exits) == Meaning(pipeline, exits)
        invariant piped <==> m.procs != []
        decreases |rest|
      {
        FrontOf(rest);
        var node := rest[0];
        ghost var before := rest;
        rest := rest[1..];
        if node.Chdir? {
          if rest == [] {
            return Raised(IndexError, m.launches, m.log);
          }
          assert before[1].And?;
          rest := rest[1..];
          assert rest == before[2..];
          if node.dir.None? {
            return Raised(TypeError, m.launches, m.log);
          }
          ExecCd(node.dir.value, ToScript(rest), m, exits);
          m := m.(cwd := JoinPath(m.cwd, node.dir.value));
          continue;
        }
        ghost var was := m;
        m := StartCommand(node, m, piped);
        ExecSingle(node, was);
        if rest == [] {
          var retval, waits := ExecPipedCommands(m.procs, exits);
          var closes := CloseFiles(m.toClose);
          return Returned(retval, m.launches, m.log + waits + closes);
        }
        var nextNode := rest[0];
        rest := rest[1..];
        assert rest == before[2..];
        if nextNode.Pipe? {
          piped := true;
          ExecPipe(node, ToScript(rest), was, exits);
        } else {
          var thisRetval, waits := ExecPipedCommands(m.procs, exits);
          var closes := CloseFiles(m.toClose);
          m := m.(toClose := [], log := m.log + waits + closes);
          if nextNode.Or? {
            if thisRetval == 0 {
              return Returned(thisRetval, m.launches, m.log);
            }
          } else if thisRetval != 0 {
            return Returned(thisRetval, m.launches, m.log);
          }
          piped := false;
          m := m.(procs := []);
        }
      }
      outcome := Nothing;
    }
  }
}
