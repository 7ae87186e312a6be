/** Command lines of waf-tools/shellcmd.py as they are really written: words and
    redirections in any order. */
module ShellOrders {
  import opened Basics
  import opened ShellSyntax
  import opened ShellParser

  /** What can stand after the name of a command. */
  datatype Item = Word(word: string) | In(name: string) | Out(name: string) | Err(name: string) | ErrToOut

  predicate ItemOk(it: Item) {
    it.Word? ==> !OperatorToken(it.word)
  }

  function ItemTokens(it: Item): seq<string> {
    match it
    case Word(w) => [w]
    case In(name) => ["<", name]
    case Out(name) => [">", name]
    case Err(name) => ["2>", name]
    case ErrToOut => ["2>&1"]
  }

  function Tokens(items: seq<Item>): seq<string> {
    if items == [] then [] else ItemTokens(items[0]) + Tokens(items[1..])
  }

  // ---------- what the items say ----------

  function Words(items: seq<Item>): seq<string> {
    if items == [] then [] else (if items[0].Word? then [items[0].word] else []) + Words(items[1..])
  }

  /** What is said of standard input, output and error, in order. */
  function Inputs(items: seq<Item>): seq<Redirect> {
    if items == [] then [] else (if items[0].In? then [Named(items[0].name)] else []) + Inputs(items[1..])
  }

  function Outputs(items: seq<Item>): seq<Redirect> {
    if items == [] then [] else (if items[0].Out? then [Named(items[0].name)] else []) + Outputs(items[1..])
  }

  function Errors(items: seq<Item>): seq<Redirect> {
    if items == [] then [] else ErrorOf(items[0]) + Errors(items[1..])
  }

  function ErrorOf(it: Item): seq<Redirect> {
    match it
    case Err(name) => [Named(name)]
    case ErrToOut => [ToStdout]
    case _ => []
  }

  /** A stream can be named once. */
  predicate Free(now: Redirect, more: seq<Redirect>) {
    more == [] || (|more| == 1 && now.Inherit?)
  }

  function Stream(now: Redirect, more: seq<Redirect>): Redirect {
    if more == [] then now else more[0]
  }

  predicate Accepted(c: Node, items: seq<Item>)
    requires c.Command?
  {
    Free(c.stdin, Inputs(items)) && Free(c.stdout, Outputs(items)) && Free(c.stderr, Errors(items))
  }

  /** The command after the items: all words in order, each stream as named. */
  function Extended(c: Node, items: seq<Item>): Node
    requires c.Command?
  {
    c.(args := c.args + Words(items), stdin := Stream(c.stdin, Inputs(items)),
       stdout := Stream(c.stdout, Outputs(items)), stderr := Stream(c.stderr, Errors(items)))
  }

  lemma OneItem(it: Item)
    ensures Words([it]) == if it.Word? then [it.word] else []
    ensures Inputs([it]) == if it.In? then [Named(it.name)] else []
    ensures Outputs([it]) == if it.Out? then [Named(it.name)] else []
    ensures Errors([it]) == ErrorOf(it)
  {
    assert [it][1..] == [];
  }

  lemma FeedItem(s: ParseState, it: Item)
    requires s.mode.InCommand? && InPlace(s) && ItemOk(it)
    ensures var c := s.current.value;
      Feed(s, ItemTokens(it)) == if Accepted(c, [it]) then Some(s.(current := Some(Extended(c, [it])))) else None
  {
    var c := s.current.value;
    OneItem(it);
    assert c.args + [] == c.args;
    match it
    case Word(w) =>
      FeedOne(s, w);
    case In(name) => FeedTwo(s, "<", name);
    case Out(name) => FeedTwo(s, ">", name);
    case Err(name) => FeedTwo(s, "2>", name);
    case ErrToOut => FeedOne(s, "2>&1");
  }

  lemma FreeCons(now: Redirect, a: seq<Redirect>, b: seq<Redirect>)
    requires |a| <= 1 && forall r :: r in a ==> !r.Inherit?
    ensures Free(now, a + b) <==> Free(now, a) && Free(Stream(now, a), b)
    ensures Free(now, a + b) ==> Stream(Stream(now, a), b) == Stream(now, a + b)
  {
    assert a == [] ==> a + b == b;
  }

  lemma ItemsCons(it: Item, rest: seq<Item>)
    ensures var all := [it] + rest;
      && Words(all) == (if it.Word? then [it.word] else []) + Words(rest)
      && Inputs(all) == (if it.In? then [Named(it.name)] else []) + Inputs(rest)
      && Outputs(all) == (if it.Out? then [Named(it.name)] else []) + Outputs(rest)
      && Errors(all) == ErrorOf(it) + Errors(rest)
  {
    assert ([it] + rest)[1..] == rest;
  }

  lemma AcceptedCons(c: Node, it: Item, rest: seq<Item>)
    requires c.Command?
    ensures Accepted(c, [it] + rest) <==> Accepted(c, [it]) && Accepted(Extended(c, [it]), rest)
    ensures Accepted(c, [it] + rest) ==> Extended(Extended(c, [it]), rest) == Extended(c, [it] + rest)
  {
    OneItem(it);
    ItemsCons(it, rest);
    FreeCons(c.stdin, Inputs([it]), Inputs(rest));
    FreeCons(c.stdout, Outputs([it]), Outputs(rest));
    FreeCons(c.stderr, Errors([it]), Errors(rest));
    Associate(c.args, Words([it]), Words(rest));
  }

  /** The items of a command are read in any order: the words become the
      arguments in their order, each stream is the one named, and a stream named
      twice is refused. */
  lemma {:induction false} FeedItems(s: ParseState, items: seq<Item>)
    requires s.mode.InCommand? && InPlace(s) && forall it :: it in items ==> ItemOk(it)
    ensures var c := s.current.value;
      Feed(s, Tokens(items)) == if Accepted(c, items) then Some(s.(current := Some(Extended(c, items)))) else None
    decreases |items|
  {
    var c := s.current.value;
    if items == [] {
      assert c.args + [] == c.args;
    } else {
      var it, rest := items[0], items[1..];
      assert items == [it] + rest;
      FeedItem(s, it);
      FeedConcat(s, ItemTokens(it), Tokens(rest));
      AcceptedCons(c, it, rest);
      if Accepted(c, [it]) {
        FeedItems(s.(current := Some(Extended(c, [it]))), rest);
      }
    }
  }

  // ---------- whole pipelines ----------

  function Said(r: Redirect): seq<Redirect> {
    if r.Named? || r.ToStdout? then [r] else []
  }

  /** The items say what the command is. */
  ghost predicate Writes(items: seq<Item>, c: Node)
    requires c.Command?
  {
    && (forall it :: it in items ==> ItemOk(it))
    && Words(items) == c.args && Inputs(items) == Said(c.stdin)
    && Outputs(items) == Said(c.stdout) && Errors(items) == Said(c.stderr)
  }

  /** A command with its items in this order. */
  ghost function CommandTokens(name: string, env: map<string, string>, items: seq<Item>): seq<string> {
    EnvTokens(env) + ([name] + Tokens(items))
  }

  lemma FeedName(p: seq<Node>, name: string, env: map<string, string>, rest: seq<string>)
    requires name != "cd" && EnvMatch(name).None? && EnvOk(env)
    ensures Feed(ParseState(Begin, None, map[], p), EnvTokens(env) + ([name] + rest))
            == Feed(ParseState(InCommand, Some(NewCommand(name, env)), map[], p), rest)
  {
    var s := ParseState(Begin, None, map[], p);
    FeedEnv(s, env);
    assert s.env + env == env;
    FeedOne(s.(env := env), name);
    FeedConcat(s.(env := env), [name], rest);
    FeedConcat(s, EnvTokens(env), [name] + rest);
  }

  ghost predicate OrderFor(n: Node, items: seq<Item>) {
    n.Command? ==> Writes(items, n)
  }

  ghost function OperandBy(n: Node, items: seq<Item>): seq<string> {
    if n.Command? then CommandTokens(n.name, n.env, items) else OperandTokens(n)
  }

  lemma FeedBy(p: seq<Node>, n: Node, items: seq<Item>)
    requires OperandOk(n) && OrderFor(n, items)
    ensures Feed(ParseState(Begin, None, map[], p), OperandBy(n, items))
            == Some(ParseState(if n.Chdir? then InChdir else InCommand, Some(Pending(n)), map[], p))
  {
    if n.Command? {
      var c := NewCommand(n.name, n.env);
      FeedName(p, n.name, n.env, Tokens(items));
      FeedItems(ParseState(InCommand, Some(c), map[], p), items);
      assert c.args + Words(items) == n.args;
      assert Extended(c, items) == Pending(n);
    } else {
      FeedOperand(p, n);
    }
  }

  ghost function OpenBy(p: seq<Node>, orders: seq<seq<Item>>): seq<string> {
    if |p| < 2 || orders == [] then [] else
    var n, k := |p| - 2, |orders| - 1;
    OpenBy(p[..n], orders[..k]) + (OperandBy(p[n], orders[k]) + OperatorTokens(p[n + 1]))
  }

  ghost predicate OrdersFor(p: seq<Node>, orders: seq<seq<Item>>) {
    2 * |orders| == |p| && forall k :: 0 <= k < |orders| ==> OrderFor(p[2 * k], orders[k])
  }

  lemma FeedLinkBy(p: seq<Node>, a: Node, op: Node, items: seq<Item>)
    requires LinkOk(a, op) && OrderFor(a, items)
    ensures Feed(ParseState(Begin, None, map[], p), OperandBy(a, items) + OperatorTokens(op))
            == Some(ParseState(Begin, None, map[], p + [a, op]))
  {
    var t := ParseState(if a.Chdir? then InChdir else InCommand, Some(Pending(a)), map[], p);
    FeedBy(p, a, items);
    FeedConcat(ParseState(Begin, None, map[], p), OperandBy(a, items), OperatorTokens(op));
    FeedOperator(t, p, a, op);
  }

  lemma FeedOperator(t: ParseState, p: seq<Node>, a: Node, op: Node)
    requires LinkOk(a, op)
    requires t == ParseState(if a.Chdir? then InChdir else InCommand, Some(Pending(a)), map[], p)
    ensures Feed(t, OperatorTokens(op)) == Some(ParseState(Begin, None, map[], p + [a, op]))
  {
    FeedOne(t, OperatorTokens(op)[0]);
  }

  lemma LastLink(p: seq<Node>, front: seq<Node>, a: Node, op: Node)
    requires Open(p) && |p| >= 2 && p[..|p| - 2] == front && p[|p| - 2] == a && p[|p| - 1] == op
    ensures Open(front) && LinkOk(a, op) && p == front + [a, op]
  {
    assert p == front + [a, op];
    OpenSnoc(front, a, op);
  }

  lemma {:induction false} FeedOpenBy(p: seq<Node>, orders: seq<seq<Item>>)
    requires Open(p) && OrdersFor(p, orders)
    ensures Feed(START, OpenBy(p, orders)) == Some(ParseState(Begin, None, map[], p))
  {
    if p != [] {
      var n, k := |p| - 2, |orders| - 1;
      var front, a, op := p[..n], p[n], p[n + 1];
      LastLink(p, front, a, op);
      assert OrderFor(p[2 * k], orders[k]);
      FeedOpenBy(front, orders[..k]);
      FeedLinkBy(front, a, op, orders[k]);
      FeedConcat(START, OpenBy(front, orders[..k]), OperandBy(a, orders[k]) + OperatorTokens(op));
    }
  }

  /** A well-formed pipeline is read back from every way of writing it, whatever
      the order of words and redirections in each command. */
  lemma ParseAnyOrder(p: seq<Node>, orders: seq<seq<Item>>, last: seq<Item>)
    requires WellFormed(p) && OrdersFor(p[..|p| - 1], orders) && OrderFor(p[|p| - 1], last)
    ensures Parse(OpenBy(p[..|p| - 1], orders) + OperandBy(p[|p| - 1], last)) == Some(p)
  {
    LastBy(p[..|p| - 1], p[|p| - 1], orders, last, p);
  }

  lemma LastBy(front: seq<Node>, n: Node, orders: seq<seq<Item>>, last: seq<Item>, p: seq<Node>)
    requires Open(front) && LastOk(n) && OrdersFor(front, orders) && OrderFor(n, last) && p == front + [n]
    ensures Parse(OpenBy(front, orders) + OperandBy(n, last)) == Some(p)
  {
    FeedOpenBy(front, orders);
    FeedBy(front, n, last);
    FeedConcat(START, OpenBy(front, orders), OperandBy(n, last));
    ParseFrom(OpenBy(front, orders) + OperandBy(n, last),
              ParseState(if n.Chdir? then InChdir else InCommand, Some(n), map[], front), n, p);
  }

  /** A command that names a stream twice is refused, whatever follows. */
  lemma TwiceIsRefused(p: seq<Node>, name: string, env: map<string, string>, items: seq<Item>, rest: seq<string>)
    requires Open(p) && name != "cd" && EnvMatch(name).None? && EnvOk(env)
    requires (forall it :: it in items ==> ItemOk(it)) && !Accepted(NewCommand(name, env), items)
    ensures Parse(OpenTokens(p) + (CommandTokens(name, env, items) + rest)) == None
  {
    var s, tokens := ParseState(Begin, None, map[], p), CommandTokens(name, env, items);
    FeedOpen(p);
    FeedName(p, name, env, Tokens(items));
    FeedItems(ParseState(InCommand, Some(NewCommand(name, env)), map[], p), items);
    FeedConcat(s, tokens, rest);
    FeedConcat(START, OpenTokens(p), tokens + rest);
  }

  lemma Through(s: ParseState, tokens: seq<string>, t: ParseState, rest: seq<string>)
    requires InPlace(s) && Feed(s, tokens) == Some(t)
    ensures Feed(s, tokens + rest) == Feed(t, rest)
  {
    FeedConcat(s, tokens, rest);
  }

  /** The example that the module runs by itself. */
  lemma SourceExample(tokens: seq<string>)
    requires tokens == ["./foo.py", "2>&1", "<", "xxx", "|", "cat", "&&", "ls"]
    ensures Parse(tokens) == Some([Command("./foo.py", [], Named("xxx"), ToPipe, ToStdout, map[]), Pipe,
                                   NewCommand("cat", map[]), And, NewCommand("ls", map[])])
  {
    assert tokens == ["./foo.py"] + (["2>&1", "<", "xxx"] + (["|"] + ["cat", "&&", "ls"]));
    ExampleParse(Command("./foo.py", [], Named("xxx"), ToPipe, ToStdout, map[]), tokens, ["cat", "&&", "ls"]);
  }

  lemma ExampleParse(foo: Node, tokens: seq<string>, rest: seq<string>)
    requires foo == Command("./foo.py", [], Named("xxx"), ToPipe, ToStdout, map[]) && rest == ["cat", "&&", "ls"]
    requires tokens == ["./foo.py"] + (["2>&1", "<", "xxx"] + (["|"] + rest))
    ensures Parse(tokens) == Some([foo, Pipe, NewCommand("cat", map[]), And, NewCommand("ls", map[])])
  {
    var ls, front := NewCommand("ls", map[]), [foo, Pipe] + [NewCommand("cat", map[]), And];
    ExampleStart(foo, rest);
    ExampleEnd([foo, Pipe]);
    assert front + [ls] == [foo, Pipe, NewCommand("cat", map[]), And, ls];
    ParseFrom(tokens, ParseState(InCommand, Some(ls), map[], front), ls, front + [ls]);
  }

  lemma ExampleStart(foo: Node, rest: seq<string>)
    requires foo == Command("./foo.py", [], Named("xxx"), ToPipe, ToStdout, map[])
    ensures Feed(START, ["./foo.py"] + (["2>&1", "<", "xxx"] + (["|"] + rest)))
            == Feed(ParseState(Begin, None, map[], [foo, Pipe]), rest)
  {
    var c := NewCommand("./foo.py", map[]);
    var s1 := ParseState(InCommand, Some(c), map[], []);
    assert EnvMatch("./foo.py").None?;
    FeedOne(START, "./foo.py");
    Through(START, ["./foo.py"], s1, ["2>&1", "<", "xxx"] + (["|"] + rest));
    ExampleMiddle(c, s1, foo, rest);
  }

  lemma ExampleMiddle(c: Node, s: ParseState, foo: Node, rest: seq<string>)
    requires c == NewCommand("./foo.py", map[]) && s == ParseState(InCommand, Some(c), map[], [])
    requires foo == Command("./foo.py", [], Named("xxx"), ToPipe, ToStdout, map[])
    ensures Feed(s, ["2>&1", "<", "xxx"] + (["|"] + rest)) == Feed(ParseState(Begin, None, map[], [foo, Pipe]), rest)
  {
    var items, t := [ErrToOut, In("xxx")], ParseState(InCommand, Some(foo.(stdout := Inherit)), map[], []);
    ExampleItems(c, items);
    FeedItems(s, items);
    Through(s, ["2>&1", "<", "xxx"], t, ["|"] + rest);
    assert [] + [foo, Pipe] == [foo, Pipe];
    FeedCons(t, "|", ParseState(Begin, None, map[], [foo, Pipe]), rest);
  }

  lemma ExampleItems(c: Node, items: seq<Item>)
    requires c == NewCommand("./foo.py", map[]) && items == [ErrToOut, In("xxx")]
    ensures Tokens(items) == ["2>&1", "<", "xxx"] && Accepted(c, items)
    ensures Extended(c, items) == Command("./foo.py", [], Named("xxx"), Inherit, ToStdout, map[])
  {
    assert items[1..] == [In("xxx")];
    OneItem(In("xxx"));
    assert Tokens([In("xxx")]) == ["<", "xxx"] by { assert [In("xxx")][1..] == []; }
    assert Tokens(items) == ["2>&1"] + ["<", "xxx"];
    assert Inputs(items) == [] + [Named("xxx")] && Errors(items) == [ToStdout] + [];
  }

  lemma ExampleEnd(p: seq<Node>)
    ensures Feed(ParseState(Begin, None, map[], p), ["cat", "&&", "ls"])
            == Some(ParseState(InCommand, Some(NewCommand("ls", map[])), map[], p + [NewCommand("cat", map[]), And]))
  {
    PlainName("cat");
    PlainName("ls");
    var t := ParseState(Begin, None, map[], p + [NewCommand("cat", map[]), And]);
    FeedTwo(ParseState(Begin, None, map[], p), "cat", "&&");
    FeedOne(t, "ls");
    FeedConcat(ParseState(Begin, None, map[], p), ["cat", "&&"], ["ls"]);
    assert ["cat", "&&"] + ["ls"] == ["cat", "&&", "ls"];
  }

  lemma PlainName(name: string)
    requires name == "cat" || name == "ls"
    ensures EnvMatch(name).None?
  {
    WordLengthOf(name, "");
    assert name + "" == name;
  }
}
