/** The parser of waf-tools/shellcmd.py: its range is exactly the well-formed
    pipelines, and it undoes printing. */
module ShellParser {
  import opened Basics
  import opened ShellSyntax

  // ---------- printing ----------

  ghost function SomeKey(env: map<string, string>): (k: string)
    requires env != map[]
    ensures k in env
  {
    var k :| k in env;
    k
  }

  /** The assignments of an environment, in some order. */
  ghost function EnvTokens(env: map<string, string>): seq<string>
    decreases |env|
  {
    if env == map[] then [] else
    var k := SomeKey(env);
    [k + "=" + env[k]] + EnvTokens(env - {k})
  }

  ghost function RedirectTokens(c: Node): seq<string>
    requires c.Command?
  {
    (if c.stdin.Named? then ["<", c.stdin.name] else [])
    + (if c.stdout.Named? then [">", c.stdout.name] else [])
    + (if c.stderr.Named? then ["2>", c.stderr.name] else if c.stderr.ToStdout? then ["2>&1"] else [])
  }

  ghost function OperandTokens(n: Node): seq<string> {
    match n
    case Command(name, args, _, _, _, env) => EnvTokens(env) + ([name] + args + RedirectTokens(n))
    case Chdir(dir) => if dir.Some? then ["cd", dir.value] else ["cd"]
    case _ => []
  }

  ghost function OperatorTokens(n: Node): seq<string> {
    if n.Pipe? then ["|"] else if n.And? then ["&&"] else ["||"]
  }

  ghost function OpenTokens(p: seq<Node>): seq<string> {
    if |p| < 2 then [] else
    var n := |p| - 2;
    OpenTokens(p[..n]) + (OperandTokens(p[n]) + OperatorTokens(p[n + 1]))
  }

  /** A pipeline written out as tokens. */
  ghost function Print(p: seq<Node>): seq<string> {
    if p == [] then [] else OpenTokens(p[..|p| - 1]) + OperandTokens(p[|p| - 1])
  }

  // ---------- feeding token lists ----------

  lemma {:induction false} FeedConcat(s: ParseState, a: seq<string>, b: seq<string>)
    requires InPlace(s)
    ensures Feed(s, a + b) == if Feed(s, a).None? then None else Feed(Feed(s, a).value, b)
    decreases |a|
  {
    if a == [] {
      assert a + b == b;
    } else {
      assert (a + b)[1..] == a[1..] + b;
      if Token(s, a[0]).Some? {
        FeedConcat(Token(s, a[0]).value, a[1..], b);
      }
    }
  }

  lemma FeedOne(s: ParseState, token: string)
    requires InPlace(s)
    ensures Feed(s, [token]) == Token(s, token)
  {
    assert [token][1..] == [];
  }

  lemma {:induction false} WordLengthOf(name: string, rest: string)
    requires forall c :: c in name ==> WordChar(c)
    requires rest != [] ==> !WordChar(rest[0])
    ensures WordLength(name + rest) == |name|
  {
    if name == [] {
      assert name + rest == rest;
    } else {
      assert (name + rest)[1..] == name[1..] + rest;
      WordLengthOf(name[1..], rest);
    }
  }

  /** An assignment is read back as its name and value. */
  lemma EnvMatchPrinted(k: string, v: string)
    requires EnvName(k) && EnvValue(v)
    ensures EnvMatch(k + "=" + v) == Some((k, v))
  {
    var token := k + ("=" + v);
    assert token == k + "=" + v;
    WordLengthOf(k, "=" + v);
    assert token[|k| + 1..] == v && token[..|k|] == k;
    assert v[|v| - 1] in v;
  }

  lemma LowerCase(c: char)
    ensures 'a' <= c <= 'z' <==> c in "abcdefghijklmnopqrstuvwxyz"
  {
    if 'a' <= c <= 'z' {
      assert "abcdefghijklmnopqrstuvwxyz"[c as int - 97] == c;
    }
  }

  lemma UpperCase(c: char)
    ensures 'A' <= c <= 'Z' <==> c in "ABCDEFGHIJKLMNOPQRSTUVWXYZ"
  {
    if 'A' <= c <= 'Z' {
      assert "ABCDEFGHIJKLMNOPQRSTUVWXYZ"[c as int - 65] == c;
    }
  }

  lemma Digits(c: char)
    ensures '0' <= c <= '9' <==> c in "0123456789"
  {
    if '0' <= c <= '9' {
      assert "0123456789"[c as int - 48] == c;
    }
  }

  /** The word characters of the pattern. */
  lemma WordChars(c: char)
    ensures WordChar(c) <==> c == '_' || c in "0123456789" ||
                             c in "abcdefghijklmnopqrstuvwxyz" || c in "ABCDEFGHIJKLMNOPQRSTUVWXYZ"
  {
    LowerCase(c);
    UpperCase(c);
    Digits(c);
  }

  /** A value with a blank inside is no assignment: space, tab, line feed,
      vertical tab, form feed, carriage return. */
  lemma BlankInside(k: string, a: string, c: char, b: string)
    requires EnvName(k) && b != [] && c as int in {32, 9, 10, 11, 12, 13}
    ensures EnvMatch(k + "=" + (a + [c] + b)).None?
  {
    var v := a + [c] + b;
    assert k + "=" + v == k + ("=" + v);
    WordLengthOf(k, "=" + v);
    assert (k + ("=" + v))[|k| + 1..] == v;
    assert v[|a|] == c && DropFinalNewline(v)[|a|] == c;
    assert c in DropFinalNewline(v) && Blank(c);
  }

  /** What the pattern matches is a name and a value. */
  lemma EnvMatchParts(token: string)
    requires EnvMatch(token).Some?
    ensures EnvName(EnvMatch(token).value.0) && EnvValue(EnvMatch(token).value.1)
  {
    WordLengthBound(token);
  }

  lemma FeedCons(s: ParseState, token: string, t: ParseState, rest: seq<string>)
    requires InPlace(s) && Token(s, token) == Some(t)
    ensures Feed(s, [token] + rest) == Feed(t, rest)
  {
    assert ([token] + rest)[1..] == rest;
  }

  lemma TokenEnv(s: ParseState, k: string, v: string)
    requires s.mode.Begin? && s.current.None? && EnvName(k) && EnvValue(v)
    ensures Token(s, k + "=" + v) == Some(s.(env := s.env[k := v]))
  {
    EnvMatchPrinted(k, v);
  }

  ghost predicate EnvOk(env: map<string, string>) {
    forall k :: k in env ==> EnvName(k) && EnvValue(env[k])
  }

  lemma AddLater<K, V>(a: map<K, V>, b: map<K, V>, k: K)
    requires k in b
    ensures a[k := b[k]] + (b - {k}) == a + b
  {
  }

  lemma {:induction false} FeedEnv(s: ParseState, env: map<string, string>)
    requires s.mode.Begin? && s.current.None? && EnvOk(env)
    ensures Feed(s, EnvTokens(env)) == Some(s.(env := s.env + env))
    decreases |env|
  {
    if env == map[] {
      assert s.env + env == s.env;
    } else {
      var k := SomeKey(env);
      var t := s.(env := s.env[k := env[k]]);
      TokenEnv(s, k, env[k]);
      FeedCons(s, k + "=" + env[k], t, EnvTokens(env - {k}));
      FeedEnv(t, env - {k});
      AddLater(s.env, env, k);
    }
  }

  lemma {:induction false} FeedArgs(s: ParseState, args: seq<string>)
    requires s.mode.InCommand? && InPlace(s) && forall a :: a in args ==> !OperatorToken(a)
    ensures Feed(s, args) == Some(s.(current := Some(s.current.value.(args := s.current.value.args + args))))
    decreases |args|
  {
    var c := s.current.value;
    if args == [] {
      assert c.args + args == c.args;
    } else {
      assert !OperatorToken(args[0]);
      var t := s.(current := Some(c.(args := c.args + [args[0]])));
      assert Token(s, args[0]) == Some(t);
      FeedArgs(t, args[1..]);
      assert c.args + [args[0]] + args[1..] == c.args + args;
    }
  }

  /** The command as it stands before the operator after it is read: only a
      pipe sign sends its output to a pipe. */
  function Pending(n: Node): Node {
    if n.Command? && n.stdout.ToPipe? then n.(stdout := Inherit) else n
  }

  lemma FeedTwo(s: ParseState, a: string, b: string)
    requires InPlace(s)
    ensures Feed(s, [a, b]) == if Token(s, a).None? then None else Token(Token(s, a).value, b)
  {
    FeedConcat(s, [a], [b]);
    FeedOne(s, a);
    if Token(s, a).Some? {
      FeedOne(Token(s, a).value, b);
    }
    assert [a] + [b] == [a, b];
  }

  lemma FeedRedirects(s: ParseState, c: Node)
    requires s.mode.InCommand? && c.Command? && OperandOk(c)
    requires s.current == Some(c.(stdin := Inherit, stdout := Inherit, stderr := Inherit))
    ensures Feed(s, RedirectTokens(c)) == Some(s.(current := Some(Pending(c))))
  {
    var i := if c.stdin.Named? then ["<", c.stdin.name] else [];
    var o := if c.stdout.Named? then [">", c.stdout.name] else [];
    var e := if c.stderr.Named? then ["2>", c.stderr.name] else if c.stderr.ToStdout? then ["2>&1"] else [];
    var s1 := s.(current := Some(c.(stdout := Inherit, stderr := Inherit)));
    var s2 := s.(current := Some(Pending(c).(stderr := Inherit)));
    assert Feed(s, i) == Some(s1) by {
      if c.stdin.Named? {
        FeedTwo(s, "<", c.stdin.name);
      }
    }
    assert Feed(s1, o) == Some(s2) by {
      if c.stdout.Named? {
        FeedTwo(s1, ">", c.stdout.name);
      }
    }
    assert Feed(s2, e) == Some(s.(current := Some(Pending(c)))) by {
      if c.stderr.Named? {
        FeedTwo(s2, "2>", c.stderr.name);
      } else if c.stderr.ToStdout? {
        FeedOne(s2, "2>&1");
      }
    }
    FeedConcat(s, i + o, e);
    FeedConcat(s, i, o);
  }

  lemma FeedOperand(p: seq<Node>, n: Node)
    requires OperandOk(n)
    ensures Feed(ParseState(Begin, None, map[], p), OperandTokens(n))
            == Some(ParseState(if n.Chdir? then InChdir else InCommand, Some(Pending(n)), map[], p))
  {
    var s := ParseState(Begin, None, map[], p);
    match n
    case Command(name, args, _, _, _, env) =>
      var named := ParseState(InCommand, Some(NewCommand(name, env)), map[], p);
      var argued := named.(current := Some(n.(stdin := Inherit, stdout := Inherit, stderr := Inherit)));
      FeedEnv(s, env);
      assert s.env + env == env;
      FeedOne(s.(env := env), name);
      FeedArgs(named, args);
      assert [] + args == args;
      FeedRedirects(argued, n);
      FeedConcat(named, args, RedirectTokens(n));
      FeedConcat(s.(env := env), [name], args + RedirectTokens(n));
      assert [name] + args + RedirectTokens(n) == [name] + (args + RedirectTokens(n));
      FeedConcat(s, EnvTokens(env), [name] + args + RedirectTokens(n));
    case Chdir(dir) =>
      assert EnvMatch("cd").None?;
      if dir.Some? {
        FeedTwo(s, "cd", dir.value);
      } else {
        FeedOne(s, "cd");
      }
    case _ =>
  }

  lemma FeedLink(p: seq<Node>, a: Node, op: Node)
    requires LinkOk(a, op)
    ensures Feed(ParseState(Begin, None, map[], p), OperandTokens(a) + OperatorTokens(op))
            == Some(ParseState(Begin, None, map[], p + [a, op]))
  {
    var s := ParseState(Begin, None, map[], p);
    var t := ParseState(if a.Chdir? then InChdir else InCommand, Some(Pending(a)), map[], p);
    FeedOperand(p, a);
    FeedConcat(s, OperandTokens(a), OperatorTokens(op));
    FeedOne(t, OperatorTokens(op)[0]);
  }

  lemma {:induction false} FeedOpen(p: seq<Node>)
    requires Open(p)
    ensures Feed(START, OpenTokens(p)) == Some(ParseState(Begin, None, map[], p))
  {
    if p != [] {
      var n := |p| - 2;
      assert p == p[..n] + [p[n], p[n + 1]];
      OpenSnoc(p[..n], p[n], p[n + 1]);
      FeedOpen(p[..n]);
      FeedLink(p[..n], p[n], p[n + 1]);
      FeedConcat(START, OpenTokens(p[..n]), OperandTokens(p[n]) + OperatorTokens(p[n + 1]));
    }
  }

  lemma FeedPrint(p: seq<Node>)
    requires WellFormed(p)
    ensures var n := p[|p| - 1];
      Feed(START, Print(p)) == Some(ParseState(if n.Chdir? then InChdir else InCommand, Some(n), map[], p[..|p| - 1]))
  {
    var n := |p| - 1;
    var done := ParseState(Begin, None, map[], p[..n]);
    FeedOpen(p[..n]);
    FeedOperand(p[..n], p[n]);
    FeedConcat(START, OpenTokens(p[..n]), OperandTokens(p[n]));
  }

  lemma ParseFrom(tokens: seq<string>, s: ParseState, n: Node, p: seq<Node>)
    requires Feed(START, tokens) == Some(s) && s.current == Some(n) && s.pipeline + [n] == p
    ensures Parse(tokens) == Some(p)
  {
  }

  /** Parsing undoes printing, for every well-formed pipeline. */
  lemma ParsePrint(p: seq<Node>)
    requires WellFormed(p)
    ensures Parse(Print(p)) == Some(p)
  {
    var n := p[|p| - 1];
    FeedPrint(p);
    ParseFrom(Print(p), ParseState(if n.Chdir? then InChdir else InCommand, Some(n), map[], p[..|p| - 1]), n, p);
  }

  // ---------- what the parser guarantees ----------

  /** Kept by every token: the finished part ends with an operator, and the
      current operand could follow it. */
  ghost predicate Partial(s: ParseState) {
    && InPlace(s) && Open(s.pipeline)
    && (forall k :: k in s.env ==> EnvName(k) && EnvValue(s.env[k]))
    && (s.current.Some? ==> LastOk(s.current.value))
  }

  lemma TokenPartial(s: ParseState, token: string)
    requires Partial(s) && Token(s, token).Some?
    ensures Partial(Token(s, token).value)
  {
    if s.mode.Begin? && EnvMatch(token).Some? {
      EnvMatchParts(token);
    }
    if token in ["|", "&&", "||"] && (s.mode.InCommand? || s.mode.InChdir?) {
      OperatorPartial(s, token);
    }
  }

  lemma OperatorPartial(s: ParseState, token: string)
    requires Partial(s) && Token(s, token).Some?
    requires token in ["|", "&&", "||"] && (s.mode.InCommand? || s.mode.InChdir?)
    ensures Partial(Token(s, token).value)
  {
    var cmd := s.current.value;
    if token == "&&" {
      OpenSnoc(s.pipeline, cmd, And);
    } else if s.mode.InCommand? {
      OpenSnoc(s.pipeline, cmd, Or);
      OpenSnoc(s.pipeline, cmd.(stdout := ToPipe), Pipe);
    }
  }

  lemma {:induction false} FeedPartial(s: ParseState, tokens: seq<string>)
    requires Partial(s) && Feed(s, tokens).Some?
    ensures Partial(Feed(s, tokens).value)
    decreases |tokens|
  {
    if tokens != [] {
      TokenPartial(s, tokens[0]);
      FeedPartial(Token(s, tokens[0]).value, tokens[1..]);
    }
  }

  /** Whatever the parser accepts becomes a well-formed pipeline. */
  lemma ParsedWellFormed(tokens: seq<string>)
    requires Parse(tokens).Some?
    ensures WellFormed(Parse(tokens).value)
  {
    FeedPartial(START, tokens);
    var s := Feed(START, tokens).value;
    assert (s.pipeline + [s.current.value])[..|s.pipeline|] == s.pipeline;
  }

  /** The pipelines that some token list parses to are exactly the well-formed
      ones. */
  lemma RangeExact(p: seq<Node>)
    ensures WellFormed(p) <==> exists tokens :: Parse(tokens) == Some(p)
  {
    if WellFormed(p) {
      ParsePrint(p);
    }
    if tokens :| Parse(tokens) == Some(p) {
      ParsedWellFormed(tokens);
    }
  }

  /** The shape of a parsed pipeline, position by position. */
  lemma ParsedShape(tokens: seq<string>, p: seq<Node>, i: nat)
    requires Parse(tokens) == Some(p) && i < |p|
    ensures |p| % 2 == 1
    ensures if i % 2 == 0 then p[i].Command? || p[i].Chdir? else p[i].Pipe? || p[i].And? || p[i].Or?
    ensures p[i].Command? ==> (p[i].stdout.ToPipe? <==> i + 1 < |p| && p[i + 1].Pipe?)
    ensures p[i].Chdir? ==> i + 1 == |p| || p[i + 1].And?
  {
    ParsedWellFormed(tokens);
    if i + 1 < |p| {
      assert LinkAt(p[..|p| - 1], i / 2);
      assert i == 2 * (i / 2) || i == 2 * (i / 2) + 1;
    }
  }

  /** A redirection sign at the very end is accepted and ignored exactly when
      a command, and not a file name or a directory, can go on there. */
  lemma DanglingSign(tokens: seq<string>, sign: string)
    requires sign in [">", "2>", "<"] && Parse(tokens).Some?
    ensures Parse(tokens + [sign]) == Parse(tokens) <==> Feed(START, tokens).value.mode.InCommand?
  {
    var s := Feed(START, tokens).value;
    FeedConcat(START, tokens, [sign]);
    FeedOne(s, sign);
    var t := Token(s, sign);
    if t.Some? && !s.mode.InCommand? {
      assert (s.pipeline + [s.current.value])[|s.pipeline|] == s.current.value;
      assert (t.value.pipeline + [t.value.current.value])[|s.pipeline|] == t.value.current.value;
    }
  }
}
