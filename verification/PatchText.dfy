/** Unified diffs of utils/check-style.py as values: how they are written and
    how parse_patchset reads them line by line. */
module PatchText {
  import opened Basics

  datatype Kind = Src | Dst | Both

  datatype Line = Line(kind: Kind, text: string)

  datatype Chunk = Chunk(srcPos: nat, dstPos: nat, lines: seq<Line>)

  datatype Patch = Patch(src: string, dst: string, chunks: seq<Chunk>)

  predicate IsSrc(l: Line) { l.kind.Src? || l.kind.Both? }

  predicate IsDst(l: Line) { l.kind.Dst? || l.kind.Both? }

  /** The number of lines on the source side, and on the destination side. */
  function SrcLen(ls: seq<Line>): nat {
    if ls == [] then 0 else SrcLen(ls[..|ls| - 1]) + if IsSrc(ls[|ls| - 1]) then 1 else 0
  }

  function DstLen(ls: seq<Line>): nat {
    if ls == [] then 0 else DstLen(ls[..|ls| - 1]) + if IsDst(ls[|ls| - 1]) then 1 else 0
  }

  // ---------- decimal numbers ----------

  predicate IsDigit(c: char) { '0' <= c <= '9' }

  function Digit(d: nat): char
    requires d < 10
  {
    "0123456789"[d]
  }

  function DigitValue(c: char): nat {
    if IsDigit(c) then c as int - '0' as int else 0
  }

  function Decimal(n: nat): string {
    if n < 10 then [Digit(n)] else Decimal(n / 10) + [Digit(n % 10)]
  }

  function ToNat(s: string): nat {
    if s == [] then 0 else 10 * ToNat(s[..|s| - 1]) + DigitValue(s[|s| - 1])
  }

  lemma {:induction false} DecimalValue(n: nat)
    ensures ToNat(Decimal(n)) == n && Decimal(n) != [] && forall c :: c in Decimal(n) ==> IsDigit(c)
  {
    if n >= 10 {
      DecimalValue(n / 10);
      assert Decimal(n)[..|Decimal(n)| - 1] == Decimal(n / 10);
    }
  }

  function DigitsLength(s: string): (k: nat)
    ensures k <= |s|
  {
    if s != [] && IsDigit(s[0]) then 1 + DigitsLength(s[1..]) else 0
  }

  /** [0-9]+ at the front of s: the number and what follows it. */
  function Number(s: string): Option<(nat, string)> {
    var k := DigitsLength(s);
    if k == 0 then None else Some((ToNat(s[..k]), s[k..]))
  }

  /** What follows a fixed prefix. */
  function After(prefix: string, s: string): Option<string> {
    if prefix <= s then Some(s[|prefix|..]) else None
  }

  lemma {:induction false} DigitsLengthOf(a: string, b: string)
    requires (forall c :: c in a ==> IsDigit(c)) && (b != [] ==> !IsDigit(b[0]))
    ensures DigitsLength(a + b) == |a|
  {
    if a == [] {
      assert a + b == b;
    } else {
      assert (a + b)[1..] == a[1..] + b;
      DigitsLengthOf(a[1..], b);
    }
  }

  lemma NumberOf(n: nat, rest: string)
    requires rest != [] ==> !IsDigit(rest[0])
    ensures Number(Decimal(n) + rest) == Some((n, rest))
  {
    DecimalValue(n);
    DigitsLengthOf(Decimal(n), rest);
    assert (Decimal(n) + rest)[..|Decimal(n)|] == Decimal(n);
    assert (Decimal(n) + rest)[|Decimal(n)|..] == rest;
  }

  lemma AfterOf(prefix: string, rest: string)
    ensures After(prefix, prefix + rest) == Some(rest)
  {
  }

  // ---------- writing ----------

  function LinePrefix(k: Kind): string {
    match k
    case Src => "-"
    case Dst => "+"
    case Both => " "
  }

  function LineText(l: Line): string {
    LinePrefix(l.kind) + l.text + "\n"
  }

  function HeaderRight(c: Chunk): string {
    " +" + (Decimal(c.dstPos) + ("," + (Decimal(DstLen(c.lines)) + " @@\n")))
  }

  function HeaderTail(c: Chunk): string {
    Decimal(c.srcPos) + ("," + (Decimal(SrcLen(c.lines)) + HeaderRight(c)))
  }

  function HeaderText(c: Chunk): string {
    "@@ -" + HeaderTail(c)
  }

  ghost function LineTexts(ls: seq<Line>): seq<string> {
    if ls == [] then [] else LineTexts(ls[..|ls| - 1]) + [LineText(ls[|ls| - 1])]
  }

  ghost function ChunkTexts(cs: seq<Chunk>): seq<string> {
    if cs == [] then [] else
    var n := |cs| - 1;
    ChunkTexts(cs[..n]) + ([HeaderText(cs[n])] + LineTexts(cs[n].lines))
  }

  /** Everything written for a patch list, one string per line. */
  ghost function Print(ps: seq<Patch>): seq<string> {
    if ps == [] then [] else
    var n := |ps| - 1;
    Print(ps[..n]) + (["--- " + ps[n].src + "\n", "+++ " + ps[n].dst + "\n"] + ChunkTexts(ps[n].chunks))
  }

  // ---------- reading ----------

  /** Where the parser is: the patches so far and the position of the current
      chunk, which stays current when a new patch begins. */
  datatype State = State(patches: seq<Patch>, chunk: Option<(nat, nat)>)

  /** AttributeError: a header with no patch before it; UnboundLocalError: a line
      with no chunk before it; Exception: a line of no known form. */
  datatype Error = AttributeError | UnboundLocalError | Exception

  datatype Result<+T> = Ok(value: T) | Err(error: Error)

  /** Matching prefix followed by (.*)$: the group, which cannot contain a line
      break; one at the very end of the line is left out. */
  function Rest(prefix: string, line: string): Option<string> {
    match After(prefix, line)
    case None => None
    case Some(s) =>
      var body := if s != [] && s[|s| - 1] == '\n' then s[..|s| - 1] else s;
      if '\n' in body then None else Some(body)
  }

  /** What stands to the right of the second group. */
  function RightGroups(s4: string): Option<(nat, nat)> {
    match After(" +", s4) case None => None case Some(s5) =>
    match Number(s5) case None => None case Some((dstPos, s6)) =>
    match After(",", s6) case None => None case Some(s7) =>
    match Number(s7) case None => None case Some((dstLen, s8)) =>
    if After(" @@", s8).None? then None else Some((dstPos, dstLen))
  }

  /** Matching the chunk header: its four groups. */
  function Groups(line: string): Option<(nat, nat, nat, nat)> {
    match After("@@ -", line) case None => None case Some(s1) =>
    match Number(s1) case None => None case Some((srcPos, s2)) =>
    match After(",", s2) case None => None case Some(s3) =>
    match Number(s3) case None => None case Some((srcLen, s4)) =>
    match RightGroups(s4) case None => None case Some((dstPos, dstLen)) =>
    Some((srcPos, srcLen, dstPos, dstLen))
  }

  /** The parser uses groups 1 and 3. */
  function Header(line: string): Option<(nat, nat)> {
    match Groups(line)
    case None => None
    case Some((srcPos, _, dstPos, _)) => Some((srcPos, dstPos))
  }

  /** What a line is taken for. */
  datatype Form =
    | SrcFile(name: string)
    | DstFile(name: string)
    | Start(srcPos: nat, dstPos: nat)
    | Body(line: Line)
    | Unknown

  /** The six patterns in the order of the source. */
  function Classify(line: string): Form {
    if Rest("--- ", line).Some? then SrcFile(Rest("--- ", line).value)
    else if Rest("+++ ", line).Some? then DstFile(Rest("+++ ", line).value)
    else if Header(line).Some? then Start(Header(line).value.0, Header(line).value.1)
    else if Rest("-", line).Some? then Body(Line(Src, Rest("-", line).value))
    else if Rest("+", line).Some? then Body(Line(Dst, Rest("+", line).value))
    else if Rest(" ", line).Some? then Body(Line(Both, Rest(" ", line).value))
    else Unknown
  }

  ghost function ClassifyAll(lines: seq<string>): seq<Form> {
    if lines == [] then [] else ClassifyAll(lines[..|lines| - 1]) + [Classify(lines[|lines| - 1])]
  }

  predicate StateOk(s: State) {
    s.chunk.Some? ==> s.chunk.value.0 < |s.patches| && s.chunk.value.1 < |s.patches[s.chunk.value.0].chunks|
  }

  /** One line. */
  function Step(s: State, f: Form): (r: Result<State>)
    requires StateOk(s)
    ensures r.Ok? ==> StateOk(r.value)
  {
    var n := |s.patches|;
    match f
    case SrcFile(name) => Ok(s.(patches := s.patches + [Patch(name, "", [])]))
    case DstFile(name) =>
      if n == 0 then Err(AttributeError)
      else Ok(s.(patches := s.patches[n - 1 := s.patches[n - 1].(dst := name)]))
    case Start(srcPos, dstPos) =>
      if n == 0 then Err(AttributeError) else
      var p := s.patches[n - 1];
      Ok(State(s.patches[n - 1 := p.(chunks := p.chunks + [Chunk(srcPos, dstPos, [])])], Some((n - 1, |p.chunks|))))
    case Body(l) =>
      (match s.chunk
       case None => Err(UnboundLocalError)
       case Some((i, j)) => Ok(s.(patches := WithLines(s.patches, i, j, [l]))))
    case Unknown => Err(Exception)
  }

  /** The patches with lines added to the j-th chunk of the i-th patch. */
  function WithLines(ps: seq<Patch>, i: nat, j: nat, ls: seq<Line>): (r: seq<Patch>)
    requires i < |ps| && j < |ps[i].chunks|
    ensures |r| == |ps| && |r[i].chunks| == |ps[i].chunks|
  {
    var c := ps[i].chunks[j];
    ps[i := ps[i].(chunks := ps[i].chunks[j := c.(lines := c.lines + ls)])]
  }

  const START := State([], None)

  function Feed(s: State, forms: seq<Form>): (r: Result<State>)
    requires StateOk(s)
    ensures r.Ok? ==> StateOk(r.value)
    decreases |forms|
  {
    if forms == [] then Ok(s) else
    match Step(s, forms[0])
    case Err(e) => Err(e)
    case Ok(t) => Feed(t, forms[1..])
  }

  /** parse_patchset. */
  ghost function Parse(lines: seq<string>): Result<seq<Patch>> {
    match Feed(START, ClassifyAll(lines))
    case Err(e) => Err(e)
    case Ok(s) => Ok(s.patches)
  }

  lemma {:induction false} FeedConcat(s: State, a: seq<Form>, b: seq<Form>)
    requires StateOk(s)
    ensures Feed(s, a + b) == if Feed(s, a).Err? then Feed(s, a) else Feed(Feed(s, a).value, b)
    decreases |a|
  {
    if a == [] {
      assert a + b == b;
    } else {
      assert (a + b)[1..] == a[1..] + b;
      if Step(s, a[0]).Ok? {
        FeedConcat(Step(s, a[0]).value, a[1..], b);
      }
    }
  }

  lemma FeedOne(s: State, f: Form)
    requires StateOk(s)
    ensures Feed(s, [f]) == Step(s, f)
  {
    assert [f][1..] == [];
  }

  lemma {:induction false} ClassifyConcat(a: seq<string>, b: seq<string>)
    ensures ClassifyAll(a + b) == ClassifyAll(a) + ClassifyAll(b)
  {
    if b == [] {
      assert a + b == a;
    } else {
      var front, line := b[..|b| - 1], b[|b| - 1];
      assert b == front + [line];
      ClassifyConcat(a, front);
      ClassifySnoc(front, line);
      Associate(a, front, [line]);
      ClassifySnoc(a + front, line);
      Associate(ClassifyAll(a), ClassifyAll(front), [Classify(line)]);
    }
  }

  lemma ClassifySnoc(lines: seq<string>, line: string)
    ensures ClassifyAll(lines + [line]) == ClassifyAll(lines) + [Classify(line)]
  {
    assert (lines + [line])[..|lines|] == lines;
  }

  lemma ClassifyOne(line: string)
    ensures ClassifyAll([line]) == [Classify(line)]
  {
    assert [line][..0] == [];
  }
}
