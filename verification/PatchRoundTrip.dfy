/** Reading back a written patch list: utils/check-style.py gets the same
    patches again exactly when no removed or added line looks like a file
    header. */
module PatchRoundTrip {
  import opened Basics
  import opened PatchText

  // ---------- which lists are read back ----------

  predicate NoBreak(s: string) {
    '\n' !in s
  }

  predicate CleanChunk(c: Chunk) {
    forall i :: 0 <= i < |c.lines| ==> NoBreak(c.lines[i].text)
  }

  predicate CleanPatch(p: Patch) {
    NoBreak(p.src) && NoBreak(p.dst) && forall i :: 0 <= i < |p.chunks| ==> CleanChunk(p.chunks[i])
  }

  /** No text contains a line break. */
  predicate Clean(ps: seq<Patch>) {
    forall i :: 0 <= i < |ps| ==> CleanPatch(ps[i])
  }

  /** A removed line that starts with "-- " is written like the header of a
      source file, an added one that starts with "++ " like that of a
      destination file. */
  predicate LooksLikeHeader(l: Line) {
    (l.kind.Src? && "-- " <= l.text) || (l.kind.Dst? && "++ " <= l.text)
  }

  predicate PlainChunk(c: Chunk) {
    forall i :: 0 <= i < |c.lines| ==> !LooksLikeHeader(c.lines[i])
  }

  predicate PlainPatch(p: Patch) {
    forall i :: 0 <= i < |p.chunks| ==> PlainChunk(p.chunks[i])
  }

  predicate Plain(ps: seq<Patch>) {
    forall i :: 0 <= i < |ps| ==> PlainPatch(ps[i])
  }

  // ---------- single lines ----------

  lemma RestOf(prefix: string, body: string)
    requires NoBreak(body)
    ensures Rest(prefix, prefix + body + "\n") == Some(body)
  {
    assert (prefix + body + "\n")[|prefix|..] == body + "\n";
  }

  /** The positions of the lines on the source side: removed and kept ones. */
  ghost function SourceSide(ls: seq<Line>): set<nat> {
    set i: nat | i < |ls| && ls[i].kind in {Src, Both}
  }

  /** Those on the destination side: added and kept ones. */
  ghost function DestinationSide(ls: seq<Line>): set<nat> {
    set i: nat | i < |ls| && ls[i].kind in {Dst, Both}
  }

  lemma {:induction false} SourceLength(ls: seq<Line>)
    ensures SrcLen(ls) == |SourceSide(ls)|
  {
    if ls == [] {
      assert SourceSide(ls) == {};
    } else {
      var n := |ls| - 1;
      SourceLength(ls[..n]);
      var before := SourceSide(ls[..n]);
      assert n !in before;
      if ls[n].kind in {Src, Both} {
        assert SourceSide(ls) == before + {n};
      } else {
        assert SourceSide(ls) == before;
      }
    }
  }

  lemma {:induction false} DestinationLength(ls: seq<Line>)
    ensures DstLen(ls) == |DestinationSide(ls)|
  {
    if ls == [] {
      assert DestinationSide(ls) == {};
    } else {
      var n := |ls| - 1;
      DestinationLength(ls[..n]);
      var before := DestinationSide(ls[..n]);
      assert n !in before;
      if ls[n].kind in {Dst, Both} {
        assert DestinationSide(ls) == before + {n};
      } else {
        assert DestinationSide(ls) == before;
      }
    }
  }

  /** The four numbers in a written header are the two positions and the numbers
      of lines on the two sides. */
  lemma HeaderCounts(c: Chunk)
    ensures Groups(HeaderText(c)) ==
            Some((c.srcPos, |SourceSide(c.lines)|, c.dstPos, |DestinationSide(c.lines)|))
  {
    HeaderOf(c);
    SourceLength(c.lines);
    DestinationLength(c.lines);
  }

  lemma RightOf(dstPos: nat, dstLen: nat, tail: string)
    ensures RightGroups(" +" + (Decimal(dstPos) + ("," + (Decimal(dstLen) + (" @@" + tail))))) == Some((dstPos, dstLen))
  {
    var end := " @@" + tail;
    var counted := "," + (Decimal(dstLen) + end);
    AfterOf(" +", Decimal(dstPos) + counted);
    NumberOf(dstPos, counted);
    AfterOf(",", Decimal(dstLen) + end);
    NumberOf(dstLen, end);
    AfterOf(" @@", tail);
  }

  /** A header is read whatever follows the closing sign. */
  lemma AnyHeader(srcPos: nat, srcLen: nat, dstPos: nat, dstLen: nat, right: string, tail: string)
    requires right == " +" + (Decimal(dstPos) + ("," + (Decimal(dstLen) + (" @@" + tail))))
    ensures Groups("@@ -" + (Decimal(srcPos) + ("," + (Decimal(srcLen) + right)))) ==
            Some((srcPos, srcLen, dstPos, dstLen))
  {
    var counted := "," + (Decimal(srcLen) + right);
    AfterOf("@@ -", Decimal(srcPos) + counted);
    NumberOf(srcPos, counted);
    AfterOf(",", Decimal(srcLen) + right);
    NumberOf(srcLen, right);
    RightOf(dstPos, dstLen, tail);
  }

  lemma HeaderOf(c: Chunk)
    ensures Groups(HeaderText(c)) == Some((c.srcPos, SrcLen(c.lines), c.dstPos, DstLen(c.lines)))
  {
    assert " @@" + "\n" == " @@\n";
    AnyHeader(c.srcPos, SrcLen(c.lines), c.dstPos, DstLen(c.lines), HeaderRight(c), "\n");
  }

  lemma OtherStart(prefix: string, line: string)
    requires prefix != [] && line != [] && prefix[0] != line[0]
    ensures After(prefix, line).None?
  {
  }

  lemma ClassifyHeader(c: Chunk)
    ensures Classify(HeaderText(c)) == Start(c.srcPos, c.dstPos)
  {
    HeaderOf(c);
    OtherStart("--- ", HeaderText(c));
    OtherStart("+++ ", HeaderText(c));
  }

  lemma ClassifySrcFile(name: string)
    requires NoBreak(name)
    ensures Classify("--- " + name + "\n") == SrcFile(name)
  {
    RestOf("--- ", name);
  }

  lemma ClassifyDstFile(name: string)
    requires NoBreak(name)
    ensures Classify("+++ " + name + "\n") == DstFile(name)
  {
    OtherStart("--- ", "+++ " + name + "\n");
    RestOf("+++ ", name);
  }

  /** A line of a chunk is read back as itself, unless it looks like a header;
      then it is not read as a line at all. */
  lemma ClassifyLine(l: Line)
    requires NoBreak(l.text)
    ensures if LooksLikeHeader(l) then !Classify(LineText(l)).Body? else Classify(LineText(l)) == Body(l)
  {
    match l.kind
    case Src => ClassifySrc(l.text);
    case Dst => ClassifyDst(l.text);
    case Both => ClassifyBoth(l.text);
  }

  lemma ClassifySrc(text: string)
    requires NoBreak(text)
    ensures var l := Line(Src, text);
      if "-- " <= text then Classify(LineText(l)).SrcFile? else Classify(LineText(l)) == Body(l)
  {
    var t := "-" + text + "\n";
    assert t == LineText(Line(Src, text));
    Lookalike("-", "-- ", text);
    assert "-" + "-- " == "--- ";
    OtherStart("+++ ", t);
    OtherStart("@@ -", t);
    RestOf("-", text);
  }

  lemma ClassifyDst(text: string)
    requires NoBreak(text)
    ensures var l := Line(Dst, text);
      if "++ " <= text then Classify(LineText(l)).DstFile? else Classify(LineText(l)) == Body(l)
  {
    var t := "+" + text + "\n";
    assert t == LineText(Line(Dst, text));
    Lookalike("+", "++ ", text);
    assert "+" + "++ " == "+++ ";
    OtherStart("--- ", t);
    OtherStart("@@ -", t);
    OtherStart("-", t);
    RestOf("+", text);
  }

  lemma ClassifyBoth(text: string)
    requires NoBreak(text)
    ensures Classify(LineText(Line(Both, text))) == Body(Line(Both, text))
  {
    var t := " " + text + "\n";
    assert t == LineText(Line(Both, text));
    OtherStart("--- ", t);
    OtherStart("+++ ", t);
    OtherStart("@@ -", t);
    OtherStart("-", t);
    OtherStart("+", t);
    RestOf(" ", text);
  }

  lemma PrefixOfLine(head: string, text: string)
    requires head <= text + "\n"
    ensures head <= text || '\n' in head
  {
    if |head| > |text| {
      assert head[|text|] == '\n';
    }
  }

  lemma Lookalike(sign: string, head: string, text: string)
    requires NoBreak(text) && NoBreak(head)
    ensures Rest(sign + head, sign + text + "\n").Some? <==> head <= text
  {
    var line := sign + text + "\n";
    if head <= text {
      assert line == (sign + head) + text[|head|..] + "\n";
      RestOf(sign + head, text[|head|..]);
    }
    if sign + head <= line {
      assert (text + "\n")[..|head|] == line[|sign|..][..|head|] == head;
      PrefixOfLine(head, text);
    }
  }

  // ---------- reading what was written ----------

  /** What the written lines stand for. */
  ghost function LineForms(ls: seq<Line>): seq<Form> {
    if ls == [] then [] else LineForms(ls[..|ls| - 1]) + [Body(ls[|ls| - 1])]
  }

  ghost function ChunkForms(cs: seq<Chunk>): seq<Form> {
    if cs == [] then [] else
    var n := |cs| - 1;
    ChunkForms(cs[..n]) + ([Start(cs[n].srcPos, cs[n].dstPos)] + LineForms(cs[n].lines))
  }

  ghost function PatchForms(ps: seq<Patch>): seq<Form> {
    if ps == [] then [] else
    var n := |ps| - 1;
    PatchForms(ps[..n]) + ([SrcFile(ps[n].src), DstFile(ps[n].dst)] + ChunkForms(ps[n].chunks))
  }

  lemma WithNoLines(ps: seq<Patch>, i: nat, j: nat)
    requires i < |ps| && j < |ps[i].chunks|
    ensures WithLines(ps, i, j, []) == ps
  {
    var p := ps[i];
    assert p.chunks[j].lines + [] == p.chunks[j].lines;
    assert p.chunks[j := p.chunks[j]] == p.chunks;
  }

  lemma WithMoreLines(ps: seq<Patch>, i: nat, j: nat, a: seq<Line>, b: seq<Line>)
    requires i < |ps| && j < |ps[i].chunks|
    ensures WithLines(WithLines(ps, i, j, a), i, j, b) == WithLines(ps, i, j, a + b)
  {
    var c := ps[i].chunks[j];
    assert c.lines + a + b == c.lines + (a + b);
    var d := c.(lines := c.lines + (a + b));
    assert ps[i].chunks[j := c.(lines := c.lines + a)][j := d] == ps[i].chunks[j := d];
    var p := ps[i].(chunks := ps[i].chunks[j := d]);
    assert WithLines(ps, i, j, a)[i := p] == ps[i := p];
  }

  lemma {:induction false} FeedLines(s: State, ls: seq<Line>)
    requires StateOk(s) && s.chunk.Some?
    ensures var (i, j) := s.chunk.value; Feed(s, LineForms(ls)) == Ok(s.(patches := WithLines(s.patches, i, j, ls)))
  {
    var (i, j) := s.chunk.value;
    if ls == [] {
      WithNoLines(s.patches, i, j);
    } else {
      var n := |ls| - 1;
      var t := s.(patches := WithLines(s.patches, i, j, ls[..n]));
      FeedLines(s, ls[..n]);
      FeedConcat(s, LineForms(ls[..n]), [Body(ls[n])]);
      FeedOne(t, Body(ls[n]));
      WithMoreLines(s.patches, i, j, ls[..n], [ls[n]]);
      assert ls[..n] + [ls[n]] == ls;
    }
  }

  /** The last patch extended by chunks. */
  ghost function Grow(ps: seq<Patch>, cs: seq<Chunk>): seq<Patch>
    requires ps != []
  {
    var p := ps[|ps| - 1];
    ps[|ps| - 1 := p.(chunks := p.chunks + cs)]
  }

  lemma FeedChunk(s: State, c: Chunk)
    requires StateOk(s) && s.patches != []
    ensures var r := Feed(s, [Start(c.srcPos, c.dstPos)] + LineForms(c.lines));
      r.Ok? && r.value.patches == Grow(s.patches, [c])
  {
    var n := |s.patches| - 1;
    var p := s.patches[n];
    var t := State(Grow(s.patches, [Chunk(c.srcPos, c.dstPos, [])]), Some((n, |p.chunks|)));
    FeedConcat(s, [Start(c.srcPos, c.dstPos)], LineForms(c.lines));
    FeedOne(s, Start(c.srcPos, c.dstPos));
    FeedLines(t, c.lines);
    assert [] + c.lines == c.lines;
    assert (p.chunks + [Chunk(c.srcPos, c.dstPos, [])])[|p.chunks| := c] == p.chunks + [c];
    assert t.patches[n := p.(chunks := p.chunks + [c])] == Grow(s.patches, [c]);
  }

  lemma {:induction false} FeedChunks(s: State, cs: seq<Chunk>)
    requires StateOk(s) && s.patches != []
    ensures var r := Feed(s, ChunkForms(cs)); r.Ok? && r.value.patches == Grow(s.patches, cs)
  {
    var p := s.patches[|s.patches| - 1];
    if cs == [] {
      assert p.chunks + [] == p.chunks;
    } else {
      var n := |cs| - 1;
      FeedChunks(s, cs[..n]);
      FeedConcat(s, ChunkForms(cs[..n]), [Start(cs[n].srcPos, cs[n].dstPos)] + LineForms(cs[n].lines));
      FeedChunk(Feed(s, ChunkForms(cs[..n])).value, cs[n]);
      assert p.chunks + cs[..n] + [cs[n]] == p.chunks + cs;
    }
  }

  lemma FeedPatch(s: State, p: Patch)
    requires StateOk(s)
    ensures var r := Feed(s, [SrcFile(p.src), DstFile(p.dst)] + ChunkForms(p.chunks));
      r.Ok? && r.value.patches == s.patches + [p]
  {
    var s1 := s.(patches := s.patches + [Patch(p.src, "", [])]);
    var s2 := s.(patches := s.patches + [Patch(p.src, p.dst, [])]);
    FeedConcat(s, [SrcFile(p.src)], [DstFile(p.dst)]);
    FeedOne(s, SrcFile(p.src));
    FeedOne(s1, DstFile(p.dst));
    assert s1.patches[|s.patches| := Patch(p.src, p.dst, [])] == s2.patches;
    assert [SrcFile(p.src)] + [DstFile(p.dst)] == [SrcFile(p.src), DstFile(p.dst)];
    FeedConcat(s, [SrcFile(p.src), DstFile(p.dst)], ChunkForms(p.chunks));
    FeedChunks(s2, p.chunks);
    assert [] + p.chunks == p.chunks;
    assert Grow(s2.patches, p.chunks) == s.patches + [p];
  }

  lemma {:induction false} FeedPatches(ps: seq<Patch>)
    ensures Feed(START, PatchForms(ps)).Ok? && Feed(START, PatchForms(ps)).value.patches == ps
  {
    if ps != [] {
      var n := |ps| - 1;
      FeedPatches(ps[..n]);
      FeedPatch(Feed(START, PatchForms(ps[..n])).value, ps[n]);
      FeedConcat(START, PatchForms(ps[..n]), [SrcFile(ps[n].src), DstFile(ps[n].dst)] + ChunkForms(ps[n].chunks));
      assert ps[..n] + [ps[n]] == ps;
    }
  }

  // ---------- how the written lines are read, and why lookalikes get lost ----------

  /** The number of lines that the parser adds to a chunk. */
  ghost function Bodies(fs: seq<Form>): nat {
    if fs == [] then 0 else Bodies(fs[..|fs| - 1]) + if fs[|fs| - 1].Body? then 1 else 0
  }

  lemma {:induction false} BodiesConcat(a: seq<Form>, b: seq<Form>)
    ensures Bodies(a + b) == Bodies(a) + Bodies(b)
  {
    if b == [] {
      assert a + b == a;
    } else {
      var n := |b| - 1;
      BodiesConcat(a, b[..n]);
      assert (a + b)[..|a + b| - 1] == a + b[..n];
    }
  }

  lemma BodiesOne(f: Form)
    ensures Bodies([f]) == if f.Body? then 1 else 0
  {
    assert [f][..0] == [];
  }

  ghost function LinesIn(cs: seq<Chunk>): nat {
    if cs == [] then 0 else LinesIn(cs[..|cs| - 1]) + |cs[|cs| - 1].lines|
  }

  /** The number of lines in all chunks of all patches. */
  ghost function Total(ps: seq<Patch>): nat {
    if ps == [] then 0 else Total(ps[..|ps| - 1]) + LinesIn(ps[|ps| - 1].chunks)
  }

  /** forms reads n lines as they were written, or fewer than n lines in all. */
  ghost predicate ReadsAs(forms: seq<Form>, written: seq<Form>, n: nat, plain: bool) {
    if plain then forms == written else Bodies(forms) < n
  }

  lemma ReadsJoin(f1: seq<Form>, w1: seq<Form>, n1: nat, p1: bool, f2: seq<Form>, w2: seq<Form>, n2: nat, p2: bool)
    requires ReadsAs(f1, w1, n1, p1) && ReadsAs(f2, w2, n2, p2) && Bodies(w1) == n1 && Bodies(w2) == n2
    ensures ReadsAs(f1 + f2, w1 + w2, n1 + n2, p1 && p2) && Bodies(w1 + w2) == n1 + n2
  {
    BodiesConcat(f1, f2);
    BodiesConcat(w1, w2);
  }

  lemma {:induction false} ReadLines(ls: seq<Line>)
    requires CleanChunk(Chunk(0, 0, ls))
    ensures Bodies(LineForms(ls)) == |ls|
    ensures ReadsAs(ClassifyAll(LineTexts(ls)), LineForms(ls), |ls|, PlainChunk(Chunk(0, 0, ls)))
  {
    if ls != [] {
      var n := |ls| - 1;
      ReadLines(ls[..n]);
      ClassifyLine(ls[n]);
      ClassifyConcat(LineTexts(ls[..n]), [LineText(ls[n])]);
      ClassifyOne(LineText(ls[n]));
      BodiesConcat(ClassifyAll(LineTexts(ls[..n])), [Classify(LineText(ls[n]))]);
      BodiesConcat(LineForms(ls[..n]), [Body(ls[n])]);
      BodiesOne(Classify(LineText(ls[n])));
      BodiesOne(Body(ls[n]));
      PlainSnoc(ls);
    }
  }

  lemma PlainSnoc(ls: seq<Line>)
    requires ls != []
    ensures var n := |ls| - 1;
      PlainChunk(Chunk(0, 0, ls)) <==> PlainChunk(Chunk(0, 0, ls[..n])) && !LooksLikeHeader(ls[n])
  {
    var n := |ls| - 1;
    assert forall i :: 0 <= i < n ==> ls[i] == ls[..n][i];
  }

  lemma ReadChunk(c: Chunk)
    requires CleanChunk(c)
    ensures ReadsAs(ClassifyAll([HeaderText(c)] + LineTexts(c.lines)),
                    [Start(c.srcPos, c.dstPos)] + LineForms(c.lines), |c.lines|, PlainChunk(c))
    ensures Bodies([Start(c.srcPos, c.dstPos)] + LineForms(c.lines)) == |c.lines|
  {
    ReadLines(c.lines);
    ClassifyHeader(c);
    ClassifyConcat([HeaderText(c)], LineTexts(c.lines));
    ClassifyOne(HeaderText(c));
    BodiesConcat([Start(c.srcPos, c.dstPos)], ClassifyAll(LineTexts(c.lines)));
    BodiesConcat([Start(c.srcPos, c.dstPos)], LineForms(c.lines));
    BodiesOne(Start(c.srcPos, c.dstPos));
    assert PlainChunk(c) <==> PlainChunk(Chunk(0, 0, c.lines));
  }

  lemma PlainChunksSnoc(cs: seq<Chunk>)
    requires cs != []
    ensures var n := |cs| - 1;
      PlainPatch(Patch("", "", cs)) <==> PlainPatch(Patch("", "", cs[..n])) && PlainChunk(cs[n])
  {
    var n := |cs| - 1;
    assert forall i :: 0 <= i < n ==> cs[i] == cs[..n][i];
  }

  lemma {:induction false} ReadChunks(cs: seq<Chunk>)
    requires forall i :: 0 <= i < |cs| ==> CleanChunk(cs[i])
    ensures ReadsAs(ClassifyAll(ChunkTexts(cs)), ChunkForms(cs), LinesIn(cs), PlainPatch(Patch("", "", cs)))
    ensures Bodies(ChunkForms(cs)) == LinesIn(cs)
  {
    if cs != [] {
      var n := |cs| - 1;
      var c := cs[n];
      var texts, forms := [HeaderText(c)] + LineTexts(c.lines), [Start(c.srcPos, c.dstPos)] + LineForms(c.lines);
      ReadChunks(cs[..n]);
      ReadChunk(c);
      ClassifyConcat(ChunkTexts(cs[..n]), texts);
      ReadsJoin(ClassifyAll(ChunkTexts(cs[..n])), ChunkForms(cs[..n]), LinesIn(cs[..n]),
                PlainPatch(Patch("", "", cs[..n])),
                ClassifyAll(texts), forms, |c.lines|, PlainChunk(c));
      PlainChunksSnoc(cs);
    }
  }

  lemma ReadFiles(src: string, dst: string)
    requires NoBreak(src) && NoBreak(dst)
    ensures ClassifyAll(["--- " + src + "\n", "+++ " + dst + "\n"]) == [SrcFile(src), DstFile(dst)]
    ensures Bodies([SrcFile(src), DstFile(dst)]) == 0
  {
    var a, b := "--- " + src + "\n", "+++ " + dst + "\n";
    ClassifySrcFile(src);
    ClassifyDstFile(dst);
    assert [a, b][..1] == [a] && [SrcFile(src), DstFile(dst)][..1] == [SrcFile(src)];
    ClassifyOne(a);
    BodiesOne(SrcFile(src));
  }

  lemma ReadPatch(p: Patch)
    requires CleanPatch(p)
    ensures ReadsAs(ClassifyAll(["--- " + p.src + "\n", "+++ " + p.dst + "\n"] + ChunkTexts(p.chunks)),
                    [SrcFile(p.src), DstFile(p.dst)] + ChunkForms(p.chunks), LinesIn(p.chunks), PlainPatch(p))
    ensures Bodies([SrcFile(p.src), DstFile(p.dst)] + ChunkForms(p.chunks)) == LinesIn(p.chunks)
  {
    var head := [SrcFile(p.src), DstFile(p.dst)];
    ReadFiles(p.src, p.dst);
    ReadChunks(p.chunks);
    ClassifyConcat(["--- " + p.src + "\n", "+++ " + p.dst + "\n"], ChunkTexts(p.chunks));
    ReadsJoin(head, head, 0, true, ClassifyAll(ChunkTexts(p.chunks)), ChunkForms(p.chunks), LinesIn(p.chunks),
              PlainPatch(Patch("", "", p.chunks)));
    assert PlainPatch(p) <==> PlainPatch(Patch("", "", p.chunks));
  }

  lemma PlainPatchesSnoc(ps: seq<Patch>)
    requires ps != []
    ensures var n := |ps| - 1; Plain(ps) <==> Plain(ps[..n]) && PlainPatch(ps[n])
  {
    var n := |ps| - 1;
    assert forall i :: 0 <= i < n ==> ps[i] == ps[..n][i];
  }

  lemma {:induction false} ReadPrint(ps: seq<Patch>)
    requires Clean(ps)
    ensures ReadsAs(ClassifyAll(Print(ps)), PatchForms(ps), Total(ps), Plain(ps))
    ensures Bodies(PatchForms(ps)) == Total(ps)
  {
    if ps != [] {
      var n := |ps| - 1;
      var p := ps[n];
      var texts := ["--- " + p.src + "\n", "+++ " + p.dst + "\n"] + ChunkTexts(p.chunks);
      var forms := [SrcFile(p.src), DstFile(p.dst)] + ChunkForms(p.chunks);
      ReadPrint(ps[..n]);
      ReadPatch(p);
      ClassifyConcat(Print(ps[..n]), texts);
      ReadsJoin(ClassifyAll(Print(ps[..n])), PatchForms(ps[..n]), Total(ps[..n]), Plain(ps[..n]),
                ClassifyAll(texts), forms, LinesIn(p.chunks), PlainPatch(p));
      PlainPatchesSnoc(ps);
    }
  }

  lemma {:induction false} LinesInUpdate(cs: seq<Chunk>, j: nat, c: Chunk)
    requires j < |cs|
    ensures LinesIn(cs[j := c]) + |cs[j].lines| == LinesIn(cs) + |c.lines|
  {
    var n := |cs| - 1;
    var ds := cs[j := c];
    if j == n {
      assert ds[..n] == cs[..n];
    } else {
      LinesInUpdate(cs[..n], j, c);
      assert ds[..n] == cs[..n][j := c];
    }
  }

  lemma {:induction false} TotalUpdate(ps: seq<Patch>, i: nat, p: Patch)
    requires i < |ps|
    ensures Total(ps[i := p]) + LinesIn(ps[i].chunks) == Total(ps) + LinesIn(p.chunks)
  {
    var n := |ps| - 1;
    var qs := ps[i := p];
    if i == n {
      assert qs[..n] == ps[..n];
    } else {
      TotalUpdate(ps[..n], i, p);
      assert qs[..n] == ps[..n][i := p];
    }
  }

  lemma StepTotal(s: State, f: Form)
    requires StateOk(s) && Step(s, f).Ok?
    ensures Total(Step(s, f).value.patches) == Total(s.patches) + if f.Body? then 1 else 0
  {
    var t := Step(s, f).value;
    var n := |s.patches|;
    match f
    case SrcFile(name) =>
      assert t.patches[..n] == s.patches;
    case DstFile(name) =>
      TotalUpdate(s.patches, n - 1, t.patches[n - 1]);
    case Start(_, _) =>
      var p := s.patches[n - 1];
      assert t.patches[n - 1].chunks[..|p.chunks|] == p.chunks;
      TotalUpdate(s.patches, n - 1, t.patches[n - 1]);
    case Body(l) =>
      var (i, j) := s.chunk.value;
      LinesInUpdate(s.patches[i].chunks, j, t.patches[i].chunks[j]);
      TotalUpdate(s.patches, i, t.patches[i]);
    case Unknown =>
  }

  lemma {:induction false} FeedTotal(s: State, fs: seq<Form>)
    requires StateOk(s) && Feed(s, fs).Ok?
    ensures Total(Feed(s, fs).value.patches) == Total(s.patches) + Bodies(fs)
    decreases |fs|
  {
    if fs != [] {
      StepTotal(s, fs[0]);
      FeedTotal(Step(s, fs[0]).value, fs[1..]);
      BodiesConcat([fs[0]], fs[1..]);
      BodiesOne(fs[0]);
      assert [fs[0]] + fs[1..] == fs;
    }
  }

  /** Reading back what was written gives the same patch list exactly when no
      removed line starts with "-- " and no added line with "++ ". */
  lemma RoundTripIff(ps: seq<Patch>)
    requires Clean(ps)
    ensures Parse(Print(ps)) == Ok(ps) <==> Plain(ps)
  {
    ReadPrint(ps);
    FeedPatches(ps);
    if Parse(Print(ps)) == Ok(ps) {
      FeedTotal(START, ClassifyAll(Print(ps)));
    }
  }

  // ---------- what can be read ----------

  /** What a line can be taken for: texts without line breaks, and no line of a
      chunk that looks like a file header. */
  predicate FormOk(f: Form) {
    match f
    case SrcFile(name) => NoBreak(name)
    case DstFile(name) => NoBreak(name)
    case Body(l) => NoBreak(l.text) && !LooksLikeHeader(l)
    case _ => true
  }

  /** What follows a longer prefix is found in what follows a shorter one. */
  lemma RestLonger(sign: string, head: string, line: string)
    requires Rest(sign, line).Some? && head <= Rest(sign, line).value
    ensures Rest(sign + head, line).Some?
  {
    var body := Rest(sign, line).value;
    var tail := line[|sign|..];
    assert sign + head <= line;
    assert line[|sign + head|..] == tail[|head|..];
    assert forall c :: c in body[|head|..] ==> c in body;
  }

  lemma ClassifyOk(line: string)
    ensures FormOk(Classify(line))
  {
    assert "-" + "-- " == "--- " && "+" + "++ " == "+++ ";
    if Rest("-", line).Some? && "-- " <= Rest("-", line).value {
      RestLonger("-", "-- ", line);
    }
    if Rest("+", line).Some? && "++ " <= Rest("+", line).value {
      RestLonger("+", "++ ", line);
    }
  }

  predicate PatchOk(p: Patch) {
    CleanPatch(p) && PlainPatch(p)
  }

  predicate AllPatchesOk(ps: seq<Patch>) {
    forall i :: 0 <= i < |ps| ==> PatchOk(ps[i])
  }

  lemma StepOk(s: State, f: Form)
    requires StateOk(s) && AllPatchesOk(s.patches) && FormOk(f) && Step(s, f).Ok?
    ensures AllPatchesOk(Step(s, f).value.patches)
  {
    if f.Body? {
      var (i, j) := s.chunk.value;
      assert PatchOk(s.patches[i]);
    } else if f.Start? {
      assert PatchOk(s.patches[|s.patches| - 1]);
    }
  }

  lemma {:induction false} FeedOk(s: State, fs: seq<Form>)
    requires StateOk(s) && AllPatchesOk(s.patches) && (forall f :: f in fs ==> FormOk(f)) && Feed(s, fs).Ok?
    ensures AllPatchesOk(Feed(s, fs).value.patches)
    decreases |fs|
  {
    if fs != [] {
      StepOk(s, fs[0]);
      FeedOk(Step(s, fs[0]).value, fs[1..]);
    }
  }

  lemma {:induction false} ClassifyAllOk(lines: seq<string>)
    ensures forall f :: f in ClassifyAll(lines) ==> FormOk(f)
  {
    if lines != [] {
      ClassifyAllOk(lines[..|lines| - 1]);
      ClassifyOk(lines[|lines| - 1]);
    }
  }

  lemma ParsedIsPlain(lines: seq<string>)
    requires Parse(lines).Ok?
    ensures Clean(Parse(lines).value) && Plain(Parse(lines).value)
  {
    ClassifyAllOk(lines);
    FeedOk(START, ClassifyAll(lines));
    assert forall i :: 0 <= i < |Parse(lines).value| ==> PatchOk(Parse(lines).value[i]);
  }

  /** The patch lists that some text reads as are exactly those that read back. */
  lemma RangeExact(ps: seq<Patch>)
    ensures (exists lines :: Parse(lines) == Ok(ps)) <==> Clean(ps) && Plain(ps)
  {
    if lines :| Parse(lines) == Ok(ps) {
      ParsedIsPlain(lines);
    }
    if Clean(ps) && Plain(ps) {
      RoundTripIff(ps);
    }
  }

  // ---------- where a line lands ----------

  /** There is a chunk header after the last line that begins a patch. */
  ghost predicate HeaderSince(fs: seq<Form>) {
    exists i :: 0 <= i < |fs| && fs[i].Start? && forall j :: i < j < |fs| ==> !fs[j].SrcFile?
  }

  lemma HeaderSinceSnoc(fs: seq<Form>, f: Form)
    ensures HeaderSince(fs + [f]) <==> f.Start? || (HeaderSince(fs) && !f.SrcFile?)
  {
    var all, n := fs + [f], |fs|;
    if f.Start? {
      assert all[n].Start?;
    } else if HeaderSince(fs) && !f.SrcFile? {
      var i :| 0 <= i < n && fs[i].Start? && forall j :: i < j < n ==> !fs[j].SrcFile?;
      assert all[i].Start?;
    }
    if HeaderSince(all) && !f.Start? {
      var i :| 0 <= i <= n && all[i].Start? && forall j :: i < j <= n ==> !all[j].SrcFile?;
      assert fs[i].Start? && !all[n].SrcFile?;
      assert forall j :: i < j < n ==> fs[j] == all[j];
    }
  }

  ghost predicate LastChunk(s: State, fs: seq<Form>) {
    && (s.chunk.Some? <==> exists f :: f in fs && f.Start?)
    && (HeaderSince(fs) ==> s.chunk.Some?)
    && (s.chunk.Some? ==>
          var (i, j) := s.chunk.value;
          && i < |s.patches| && j == |s.patches[i].chunks| - 1
          && (i == |s.patches| - 1 <==> HeaderSince(fs)))
  }

  /** The current chunk is the last one of its patch, and that patch is the
      newest one exactly when a chunk header has followed. */
  lemma {:induction false} CurrentChunk(fs: seq<Form>)
    requires Feed(START, fs).Ok?
    ensures LastChunk(Feed(START, fs).value, fs)
  {
    if fs != [] {
      var front, f := fs[..|fs| - 1], fs[|fs| - 1];
      assert fs == front + [f];
      FeedConcat(START, front, [f]);
      CurrentChunk(front);
      FeedOne(Feed(START, front).value, f);
      HeaderSinceSnoc(front, f);
    }
  }

  /** Where the next line of a chunk goes: to the last chunk of the newest patch
      exactly when a chunk header follows the line that began this patch, and
      else to the last chunk of an earlier patch. */
  lemma WhereLineLands(lines: seq<string>, line: string) returns (i: nat)
    requires Parse(lines).Ok? && Classify(line).Body? && exists f :: f in ClassifyAll(lines) && f.Start?
    ensures var ps := Parse(lines).value;
      && i < |ps| && ps[i].chunks != []
      && Parse(lines + [line]) == Ok(WithLines(ps, i, |ps[i].chunks| - 1, [Classify(line).line]))
      && (i == |ps| - 1 <==> HeaderSince(ClassifyAll(lines)))
  {
    var fs, f := ClassifyAll(lines), Classify(line);
    i := BodyLands(fs, f.line);
    assert f == Body(f.line);
    ParseOneMore(lines, line);
  }

  lemma BodyLands(fs: seq<Form>, l: Line) returns (i: nat)
    requires Feed(START, fs).Ok? && exists f :: f in fs && f.Start?
    ensures var s := Feed(START, fs).value;
      && i < |s.patches| && s.patches[i].chunks != [] && Step(s, Body(l)).Ok?
      && Step(s, Body(l)).value.patches == WithLines(s.patches, i, |s.patches[i].chunks| - 1, [l])
      && (i == |s.patches| - 1 <==> HeaderSince(fs))
  {
    CurrentChunk(fs);
    i := Feed(START, fs).value.chunk.value.0;
  }

  lemma ParseOneMore(lines: seq<string>, line: string)
    requires Parse(lines).Ok?
    ensures var r := Step(Feed(START, ClassifyAll(lines)).value, Classify(line));
      Parse(lines + [line]) == if r.Ok? then Ok(r.value.patches) else Err(r.error)
  {
    var fs, f := ClassifyAll(lines), Classify(line);
    ClassifyConcat(lines, [line]);
    ClassifyOne(line);
    FeedConcat(START, fs, [f]);
    FeedOne(Feed(START, fs).value, f);
  }

  /** A line that follows the second "--- " line directly ends up in the first
      patch. */
  lemma StrayLine(a: string, b: string, c: Chunk, l: Line)
    requires NoBreak(a) && NoBreak(b) && NoBreak(l.text) && !LooksLikeHeader(l)
    ensures Parse(["--- " + a + "\n", HeaderText(c), "--- " + b + "\n", LineText(l)])
            == Ok([Patch(a, "", [Chunk(c.srcPos, c.dstPos, [l])]), Patch(b, "", [])])
  {
    ClassifySrcFile(a);
    ClassifyHeader(c);
    ClassifySrcFile(b);
    ClassifyLine(l);
    ClassifyFour("--- " + a + "\n", HeaderText(c), "--- " + b + "\n", LineText(l));
    StrayForms(a, b, c, l);
  }

  lemma ClassifyFour(t1: string, t2: string, t3: string, t4: string)
    ensures ClassifyAll([t1, t2, t3, t4]) == [Classify(t1), Classify(t2), Classify(t3), Classify(t4)]
  {
    var ts := [t1, t2, t3, t4];
    ClassifyOne(t1);
    assert ts[..3] == [t1, t2, t3] && [t1, t2, t3][..2] == [t1, t2] && [t1, t2][..1] == [t1];
    assert ClassifyAll([t1, t2]) == ClassifyAll([t1]) + [Classify(t2)];
    assert ClassifyAll([t1, t2, t3]) == ClassifyAll([t1, t2]) + [Classify(t3)];
    assert ClassifyAll(ts) == ClassifyAll([t1, t2, t3]) + [Classify(t4)];
  }

  lemma StrayForms(a: string, b: string, c: Chunk, l: Line)
    ensures Feed(START, [SrcFile(a), Start(c.srcPos, c.dstPos), SrcFile(b), Body(l)])
            == Ok(State([Patch(a, "", [Chunk(c.srcPos, c.dstPos, [l])]), Patch(b, "", [])], Some((0, 0))))
  {
    var f1, f2, f3, f4 := SrcFile(a), Start(c.srcPos, c.dstPos), SrcFile(b), Body(l);
    var s1 := State([Patch(a, "", [])], None);
    var s2 := State([Patch(a, "", [Chunk(c.srcPos, c.dstPos, [])])], Some((0, 0)));
    var s3 := State(s2.patches + [Patch(b, "", [])], Some((0, 0)));
    assert START.patches + s1.patches == s1.patches && s1.patches[0 := s2.patches[0]] == s2.patches;
    assert Step(START, f1) == Ok(s1);
    assert s1.patches[0].chunks + s2.patches[0].chunks == s2.patches[0].chunks;
    assert Step(s1, f2) == Ok(s2);
    assert Step(s2, f3) == Ok(s3);
    assert [f1, f2, f3, f4][1..] == [f2, f3, f4] && [f2, f3, f4][1..] == [f3, f4] && [f3, f4][1..] == [f4];
    FeedOne(s3, f4);
    assert Feed(s2, [f3, f4]) == Feed(s3, [f4]);
    assert Feed(START, [f1, f2, f3, f4]) == Feed(s1, [f2, f3, f4]) == Feed(s2, [f3, f4]);
    var stray := s2.patches[0].chunks[0];
    assert stray.lines + [l] == [l];
    assert s2.patches[0].chunks[0 := stray.(lines := [l])] == [Chunk(c.srcPos, c.dstPos, [l])];
    assert s3.patches[0 := Patch(a, "", [Chunk(c.srcPos, c.dstPos, [l])])] ==
           [Patch(a, "", [Chunk(c.srcPos, c.dstPos, [l])]), Patch(b, "", [])];
  }

  // ---------- single texts ----------

  /** One written patch, character by character. */
  lemma WrittenPatch(p: Patch, ls: seq<Line>)
    requires ls == [Line(Src, "x"), Line(Dst, "y"), Line(Both, "z"), Line(Dst, "w")]
    requires p == Patch("a", "b", [Chunk(1, 12, ls)])
    ensures Print([p]) ==
            ["--- a\n", "+++ b\n", "@@ -1,2 +12,3 @@\n", "-x\n", "+y\n", " z\n", "+w\n"]
  {
    var c := p.chunks[0];
    FourLines(ls);
    assert "--- " + "a" + "\n" == "--- a\n" && "+++ " + "b" + "\n" == "+++ b\n";
    assert Decimal(1) == "1" && Decimal(2) == "2" && Decimal(3) == "3";
    assert Decimal(12) == "12" by { assert Decimal(12) == Decimal(1) + [Digit(2)]; }
    assert HeaderText(c) == "@@ -1,2 +12,3 @@\n";
    assert p.chunks[..0] == [] && [p][..0] == [];
    assert ChunkTexts(p.chunks) == [] + ([HeaderText(c)] + LineTexts(ls));
  }

  lemma FourLines(ls: seq<Line>)
    requires ls == [Line(Src, "x"), Line(Dst, "y"), Line(Both, "z"), Line(Dst, "w")]
    ensures LineTexts(ls) == ["-x\n", "+y\n", " z\n", "+w\n"] && SrcLen(ls) == 2 && DstLen(ls) == 3
  {
    assert "-" + "x" + "\n" == "-x\n" && "+" + "y" + "\n" == "+y\n";
    assert " " + "z" + "\n" == " z\n" && "+" + "w" + "\n" == "+w\n";
    assert ls[..3][..2] == ls[..2] && ls[..2][..1] == ls[..1] && ls[..1][..0] == [];
    assert SrcLen(ls[..1]) == 1 && DstLen(ls[..1]) == 0 && LineTexts(ls[..1]) == ["-x\n"];
    assert SrcLen(ls[..2]) == 1 && DstLen(ls[..2]) == 1 && LineTexts(ls[..2]) == ["-x\n", "+y\n"];
    assert SrcLen(ls[..3]) == 2 && DstLen(ls[..3]) == 2 && LineTexts(ls[..3]) == ["-x\n", "+y\n", " z\n"];
  }

  function WithBreak(r: Option<string>): Option<string> {
    match r
    case None => None
    case Some(s) => Some(s + "\n")
  }

  lemma AfterWithBreak(prefix: string, s: string)
    requires NoBreak(prefix)
    ensures After(prefix, s + "\n") == WithBreak(After(prefix, s))
  {
    if prefix <= s + "\n" {
      PrefixOfLine(prefix, s);
    }
    assert prefix <= s ==> (s + "\n")[|prefix|..] == s[|prefix|..] + "\n";
  }

  lemma NumberWithBreak(s: string)
    ensures Number(s).None? ==> Number(s + "\n").None?
    ensures Number(s).Some? ==> Number(s + "\n") == Some((Number(s).value.0, Number(s).value.1 + "\n"))
  {
    DigitsWithBreak(s);
    var k := DigitsLength(s);
    assert (s + "\n")[..k] == s[..k] && (s + "\n")[k..] == s[k..] + "\n";
  }

  lemma {:induction false} DigitsWithBreak(s: string)
    ensures DigitsLength(s + "\n") == DigitsLength(s)
  {
    if s != [] && IsDigit(s[0]) {
      assert (s + "\n")[1..] == s[1..] + "\n";
      DigitsWithBreak(s[1..]);
    }
  }

  lemma GroupsWithBreak(line: string)
    ensures Groups(line + "\n") == Groups(line)
  {
    AfterWithBreak("@@ -", line);
    if After("@@ -", line).Some? {
      var s1 := After("@@ -", line).value;
      NumberWithBreak(s1);
      if Number(s1).Some? {
        var s2 := Number(s1).value.1;
        AfterWithBreak(",", s2);
        if After(",", s2).Some? {
          var s3 := After(",", s2).value;
          NumberWithBreak(s3);
          if Number(s3).Some? {
            RightGroupsWithBreak(Number(s3).value.1);
          }
        }
      }
    }
  }

  lemma RightGroupsWithBreak(s4: string)
    ensures RightGroups(s4 + "\n") == RightGroups(s4)
  {
    AfterWithBreak(" +", s4);
    if After(" +", s4).Some? {
      var s5 := After(" +", s4).value;
      NumberWithBreak(s5);
      if Number(s5).Some? {
        var s6 := Number(s5).value.1;
        AfterWithBreak(",", s6);
        if After(",", s6).Some? {
          var s7 := After(",", s6).value;
          NumberWithBreak(s7);
          if Number(s7).Some? {
            AfterWithBreak(" @@", Number(s7).value.1);
          }
        }
      }
    }
  }

  /** A line means the same with and without a line break at its end. */
  lemma BreakIsOptional(line: string)
    requires NoBreak(line)
    ensures Classify(line + "\n") == Classify(line)
  {
    GroupsWithBreak(line);
    RestWithBreak("--- ", line);
    RestWithBreak("+++ ", line);
    RestWithBreak("-", line);
    RestWithBreak("+", line);
    RestWithBreak(" ", line);
  }

  lemma RestWithBreak(prefix: string, line: string)
    requires NoBreak(line) && NoBreak(prefix)
    ensures Rest(prefix, line + "\n") == Rest(prefix, line)
  {
    AfterWithBreak(prefix, line);
  }

  /** The errors for a first line that cannot come first. */
  lemma FirstLineErrors(name: string, c: Chunk, l: Line)
    requires NoBreak(name) && NoBreak(l.text) && !LooksLikeHeader(l)
    ensures Parse(["+++ " + name + "\n"]) == Err(AttributeError) && Parse([HeaderText(c)]) == Err(AttributeError)
    ensures Parse([LineText(l)]) == Err(UnboundLocalError) && Parse(["x"]) == Err(Exception)
  {
    ClassifyDstFile(name);
    ClassifyHeader(c);
    ClassifyLine(l);
    UnknownLine();
    ClassifyOne("+++ " + name + "\n");
    ClassifyOne(HeaderText(c));
    ClassifyOne(LineText(l));
    ClassifyOne("x");
    FeedOne(START, DstFile(name));
    FeedOne(START, Start(c.srcPos, c.dstPos));
    FeedOne(START, Body(l));
    FeedOne(START, Unknown);
  }

  lemma UnknownLine()
    ensures Classify("x") == Unknown
  {
    OtherStart("--- ", "x");
    OtherStart("+++ ", "x");
    OtherStart("@@ -", "x");
    OtherStart("-", "x");
    OtherStart("+", "x");
    OtherStart(" ", "x");
  }
}
