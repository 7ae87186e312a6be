/** Pipelines of waf-tools/shellcmd.py: their nodes, which of them are well
    formed, how they are written as tokens, and the parser as a function on
    its state. */
module ShellSyntax {
  import opened Basics

  /** A redirection: Python's None, a file name, Command.PIPE or Command.STDOUT. */
  datatype Redirect = Inherit | Named(name: string) | ToPipe | ToStdout

  /** env is empty where the source has env_vars = None. */
  datatype Node =
    | Command(name: string, args: seq<string>, stdin: Redirect, stdout: Redirect, stderr: Redirect,
              env: map<string, string>)
    | Chdir(dir: Option<string>)
    | Pipe
    | And
    | Or

  function NewCommand(name: string, env: map<string, string>): Node {
    Command(name, [], Inherit, Inherit, Inherit, env)
  }

  // ---------- the environment assignment pattern ----------

  predicate WordChar(c: char) {
    'a' <= c <= 'z' || 'A' <= c <= 'Z' || '0' <= c <= '9' || c == '_'
  }

  predicate Blank(c: char) {
    c == ' ' || 9 <= c as int <= 13
  }

  /** The length of the longest prefix of word characters. */
  function WordLength(s: string): nat {
    if s != [] && WordChar(s[0]) then 1 + WordLength(s[1..]) else 0
  }

  predicate NoBlank(s: string) {
    forall c :: c in s ==> !Blank(c)
  }

  /** The pattern's end matches before a final newline, too. */
  function DropFinalNewline(s: string): string {
    if s != [] && s[|s| - 1] == '\n' then s[..|s| - 1] else s
  }

  /** Matching a token against ^([a-zA-Z0-9_]+)=(\S+)$. */
  function EnvMatch(token: string): Option<(string, string)> {
    var n := WordLength(token);
    WordLengthBound(token);
    if n == 0 || n == |token| || token[n] != '=' then None else
    var value := DropFinalNewline(token[n + 1..]);
    if value != [] && NoBlank(value) then Some((token[..n], value)) else None
  }

  lemma {:induction false} WordLengthBound(s: string)
    ensures WordLength(s) <= |s|
    ensures forall c :: c in s[..WordLength(s)] ==> WordChar(c)
  {
    if s != [] && WordChar(s[0]) {
      WordLengthBound(s[1..]);
      assert s[..WordLength(s)] == [s[0]] + s[1..][..WordLength(s[1..])];
    }
  }

  // ---------- the parser ----------

  datatype Mode = Begin | InCommand | InChdir | InStderr | InStdout | InStdin

  datatype ParseState = ParseState(mode: Mode, current: Option<Node>, env: map<string, string>, pipeline: seq<Node>)

  const START := ParseState(Begin, None, map[], [])

  /** Committing the current command, then an operator; None where the source's
      assert fails. */
  function CommitOp(s: ParseState, op: Node): Option<ParseState> {
    if s.current.None? then None
    else Some(s.(pipeline := s.pipeline + [s.current.value, op], current := None, mode := Begin))
  }

  predicate InPlace(s: ParseState) {
    match s.mode
    case Begin => s.current.None?
    case InChdir => s.current.Some? && s.current.value.Chdir?
    case _ => s.current.Some? && s.current.value.Command?
  }

  /** One turn of the token loop; None is a failed assert. */
  function Token(s: ParseState, token: string): (r: Option<ParseState>)
    requires InPlace(s)
    ensures r.Some? ==> InPlace(r.value)
  {
    match s.mode
    case Begin =>
      (match EnvMatch(token)
       case Some((k, v)) => Some(s.(env := s.env[k := v]))
       case None =>
         if token == "cd" then
           if s.env != map[] then None else Some(s.(current := Some(Chdir(None)), mode := InChdir))
         else
           Some(s.(current := Some(NewCommand(token, s.env)), env := map[], mode := InCommand)))
    case InCommand =>
      var cmd := s.current.value;
      if token == ">" then Some(s.(mode := InStdout))
      else if token == "2>" then Some(s.(mode := InStderr))
      else if token == "2>&1" then
        if !cmd.stderr.Inherit? then None else Some(s.(current := Some(cmd.(stderr := ToStdout))))
      else if token == "<" then Some(s.(mode := InStdin))
      else if token == "|" then
        if !cmd.stdout.Inherit? then None else CommitOp(s.(current := Some(cmd.(stdout := ToPipe))), Pipe)
      else if token == "&&" then CommitOp(s, And)
      else if token == "||" then CommitOp(s, Or)
      else Some(s.(current := Some(cmd.(args := cmd.args + [token]))))
    case InChdir =>
      if token == "&&" then CommitOp(s, And)
      else if s.current.value.dir.Some? then None
      else Some(s.(current := Some(Chdir(Some(token)))))
    case InStdout =>
      var cmd := s.current.value;
      if !cmd.stdout.Inherit? then None else Some(s.(current := Some(cmd.(stdout := Named(token))), mode := InCommand))
    case InStderr =>
      var cmd := s.current.value;
      if !cmd.stderr.Inherit? then None else Some(s.(current := Some(cmd.(stderr := Named(token))), mode := InCommand))
    case InStdin =>
      var cmd := s.current.value;
      if !cmd.stdin.Inherit? then None else Some(s.(current := Some(cmd.(stdin := Named(token))), mode := InCommand))
  }

  /** The token loop. */
  function Feed(s: ParseState, tokens: seq<string>): (r: Option<ParseState>)
    requires InPlace(s)
    ensures r.Some? ==> InPlace(r.value)
    decreases |tokens|
  {
    if tokens == [] then Some(s) else
    match Token(s, tokens[0])
    case None => None
    case Some(t) => Feed(t, tokens[1..])
  }

  /** The whole parse: None is an AssertionError. */
  function Parse(tokens: seq<string>): Option<seq<Node>> {
    match Feed(START, tokens)
    case None => None
    case Some(s) => if s.current.None? then None else Some(s.pipeline + [s.current.value])
  }

  // ---------- well-formed pipelines ----------

  predicate OperatorToken(token: string) {
    token in [">", "2>", "2>&1", "<", "|", "&&", "||"]
  }

  predicate EnvName(s: string) {
    s != [] && forall c :: c in s ==> WordChar(c)
  }

  predicate EnvValue(s: string) {
    s != [] && NoBlank(s)
  }

  /** A command or a cd as the parser can build it. */
  predicate OperandOk(n: Node) {
    match n
    case Command(name, args, stdin, stdout, stderr, env) =>
      && name != "cd" && EnvMatch(name).None?
      && (forall a :: a in args ==> !OperatorToken(a))
      && (stdin.Inherit? || stdin.Named?)
      && !stdout.ToStdout? && !stderr.ToPipe?
      && (forall k :: k in env ==> EnvName(k) && EnvValue(env[k]))
    case Chdir(dir) => dir.Some? ==> dir.value != "&&"
    case _ => false
  }

  /** An operand and the operator after it: output goes to a pipe exactly
      before a pipe, and a cd is followed by && only. */
  predicate LinkOk(a: Node, op: Node) {
    && OperandOk(a)
    && (op.Pipe? || op.And? || op.Or?)
    && (a.Command? ==> (a.stdout.ToPipe? <==> op.Pipe?))
    && (a.Chdir? ==> op.And?)
  }

  ghost predicate LinkAt(p: seq<Node>, k: nat)
    requires 2 * k + 1 < |p|
  {
    LinkOk(p[2 * k], p[2 * k + 1])
  }

  /** Operands and operators in turn, ending with an operator. */
  ghost predicate Open(p: seq<Node>) {
    |p| % 2 == 0 && forall k: nat {:trigger LinkAt(p, k)} :: 2 * k + 1 < |p| ==> LinkAt(p, k)
  }

  ghost predicate LastOk(n: Node) {
    OperandOk(n) && (n.Command? ==> !n.stdout.ToPipe?)
  }

  /** Operands and operators in turn, starting and ending with an operand. */
  ghost predicate WellFormed(p: seq<Node>) {
    p != [] && Open(p[..|p| - 1]) && LastOk(p[|p| - 1])
  }

  lemma OpenSnoc(p: seq<Node>, a: Node, op: Node)
    ensures Open(p + [a, op]) <==> Open(p) && LinkOk(a, op) && |p| % 2 == 0
  {
    var q := p + [a, op];
    if |p| % 2 == 0 {
      var n := |p| / 2;
      assert forall k: nat :: 2 * k + 1 < |p| ==> q[2 * k] == p[2 * k] && q[2 * k + 1] == p[2 * k + 1];
      assert q[2 * n] == a && q[2 * n + 1] == op;
      if Open(q) {
        assert LinkAt(q, n);
        forall k: nat | 2 * k + 1 < |p| ensures LinkAt(p, k) {
          assert LinkAt(q, k);
        }
      }
      if Open(p) && LinkOk(a, op) {
        forall k: nat | 2 * k + 1 < |q| ensures LinkAt(q, k) {
          if k < n {
            assert LinkAt(p, k);
          }
        }
      }
    }
  }
}
