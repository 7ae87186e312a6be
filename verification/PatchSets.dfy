/** parse_patchset and remove_trailing_whitespace_changes of
    utils/check-style.py over lists of patch objects. */
module PatchSets {
  import opened Basics
  import T = PatchText
  import R = PatchRewrite
  import opened PatchObjects

  ghost predicate PatchAt(ps: seq<Patch>, i: nat, v: T.Patch)
    requires i < |ps|
    reads ps, ps[i].chunks, ps[i].Lines()
  {
    ps[i].pos == i && ps[i].Is(v)
  }

  ghost function Chunks(ps: seq<Patch>): set<PatchChunk>
    reads ps
  {
    set p, c | p in ps && c in p.chunks :: c
  }

  ghost function AllLines(ps: seq<Patch>): set<PatchChunkLine>
    reads ps, Chunks(ps)
  {
    set p, c, l | p in ps && c in p.chunks && l in c.lines :: l
  }

  /** The patch objects stand for the patches vs; all objects are distinct. */
  ghost predicate Are(ps: seq<Patch>, vs: seq<T.Patch>)
    reads ps, Chunks(ps), AllLines(ps)
  {
    && |ps| == |vs|
    && (forall i, c :: 0 <= i < |ps| && c in ps[i].chunks ==> c in Chunks(ps))
    && (forall i, l :: 0 <= i < |ps| && l in ps[i].Lines() ==> l in AllLines(ps))
    && forall i: nat {:trigger PatchAt(ps, i, vs[i])} :: i < |ps| ==> PatchAt(ps, i, vs[i])
  }

  /** Different patches share no chunk and no line. */
  lemma Apart(ps: seq<Patch>, vs: seq<T.Patch>, i: nat, j: nat)
    requires Are(ps, vs) && i < |ps| && j < |ps| && i != j
    ensures ps[i] != ps[j]
    ensures forall c :: c in ps[i].chunks ==> c !in ps[j].chunks
    ensures forall l :: l in ps[i].Lines() ==> l !in ps[j].Lines()
  {
    assert PatchAt(ps, i, vs[i]) && PatchAt(ps, j, vs[j]);
    ps[i].Owned(vs[i]);
    ps[j].Owned(vs[j]);
  }

  // ---------- rewriting ----------

  /** Rewrite the i-th patch; the others stay. */
  method RewritePatch(ps: seq<Patch>, i: nat, ghost vs: seq<T.Patch>) returns (stopped: bool)
    requires Are(ps, vs) && i < |ps|
    modifies ps[i].Lines()
    ensures Are(ps, vs[i := vs[i].(chunks := R.RewriteChunks(vs[i].chunks).0)])
    ensures stopped == R.RewriteChunks(vs[i].chunks).1
  {
    assert PatchAt(ps, i, vs[i]);
    forall k: nat | k < |ps| && k != i ensures forall l :: l in ps[k].Lines() ==> l !in ps[i].Lines() {
      Apart(ps, vs, k, i);
    }
    stopped := ps[i].Rewrite(vs[i]);
    ghost var ws := vs[i := vs[i].(chunks := R.RewriteChunks(vs[i].chunks).0)];
    forall k: nat | k < |ps| ensures PatchAt(ps, k, ws[k]) {
      if k != i {
        assert old(PatchAt(ps, k, vs[k]));
        ps[k].Kept(vs[k]);
      }
    }
  }

  lemma NothingDone(vs: seq<T.Patch>)
    ensures [] + R.Rewrite(vs) == R.Rewrite(vs) && [] + vs == vs
  {
  }

  lemma NextPatch(done: seq<T.Patch>, rest: seq<T.Patch>, p: T.Patch)
    requires rest != [] && p == rest[0].(chunks := R.RewriteChunks(rest[0].chunks).0)
    ensures (done + rest)[|done| := p] == done + [p] + rest[1..]
    ensures done + R.Rewrite(rest) ==
            done + [p] + if R.RewriteChunks(rest[0].chunks).1 then rest[1..] else R.Rewrite(rest[1..])
  {
    Associate(done, [p], if R.RewriteChunks(rest[0].chunks).1 then rest[1..] else R.Rewrite(rest[1..]));
    UpdateFirst(done, rest, p);
  }

  /** remove_trailing_whitespace_changes after parsing, early return included. */
  method RewriteAll(ps: seq<Patch>, ghost vs: seq<T.Patch>)
    requires Are(ps, vs)
    modifies AllLines(ps)
    ensures Are(ps, R.Rewrite(vs))
  {
    ghost var done: seq<T.Patch>, rest := [], vs;
    NothingDone(vs);
    for i := 0 to |ps|
      invariant |done| == i && |rest| == |ps| - i && Are(ps, done + rest)
      invariant done + R.Rewrite(rest) == R.Rewrite(vs)
    {
      ghost var p := rest[0].(chunks := R.RewriteChunks(rest[0].chunks).0);
      NextPatch(done, rest, p);
      var stopped := RewritePatch(ps, i, done + rest);
      done, rest := done + [p], rest[1..];
      if stopped {
        return;
      }
    }
  }

  // ---------- parsing ----------

  method NewPatch(ps: seq<Patch>, ghost vs: seq<T.Patch>, name: string) returns (r: seq<Patch>, p: Patch)
    requires Are(ps, vs)
    ensures Are(r, vs + [T.Patch(name, "", [])]) && r == ps + [p] && fresh(p) && p.chunks == []
  {
    p := new Patch();
    p.src := name;
    p.pos := |ps|;
    r := ps + [p];
    ghost var ws := vs + [T.Patch(name, "", [])];
    forall k: nat | k < |r| ensures PatchAt(r, k, ws[k]) {
      if k < |ps| {
        assert old(PatchAt(ps, k, vs[k]));
        ps[k].Kept(vs[k]);
      }
    }
  }

  method SetDst(ghost ps: seq<Patch>, ghost vs: seq<T.Patch>, last: Patch, name: string)
    requires Are(ps, vs) && ps != [] && last == ps[|ps| - 1]
    modifies last`dst
    ensures Are(ps, vs[|vs| - 1 := vs[|vs| - 1].(dst := name)])
    ensures forall i :: 0 <= i < |ps| ==> ps[i].chunks == old(ps[i].chunks)
  {
    ghost var n := |ps| - 1;
    ghost var ws := vs[n := vs[n].(dst := name)];
    forall k: nat | k < n ensures ps[k] != ps[n] {
      Apart(ps, vs, k, n);
    }
    last.dst := name;
    forall k: nat | k < |ps| ensures PatchAt(ps, k, ws[k]) {
      assert old(PatchAt(ps, k, vs[k]));
      if k < n {
        ps[k].Kept(vs[k]);
      } else {
        forall a: nat | a < |ps[n].chunks| ensures ps[n].ChunkAt(a, vs[n].chunks[a]) {
          assert old(ps[n].ChunkAt(a, vs[n].chunks[a]));
        }
      }
    }
  }

  method AddChunk(ghost ps: seq<Patch>, ghost vs: seq<T.Patch>, last: Patch, chunk: PatchChunk, ghost c: T.Chunk)
    requires Are(ps, vs) && ps != [] && last == ps[|ps| - 1] && chunk.Is(c) && chunk !in Chunks(ps)
    modifies last`chunks, chunk`owner, chunk`pos
    ensures Are(ps, vs[|vs| - 1 := vs[|vs| - 1].(chunks := vs[|vs| - 1].chunks + [c])])
    ensures last.chunks == old(last.chunks) + [chunk]
    ensures forall i :: 0 <= i < |ps| - 1 ==> ps[i].chunks == old(ps[i].chunks)
  {
    ghost var n := |ps| - 1;
    ghost var ws := vs[n := vs[n].(chunks := vs[n].chunks + [c])];
    forall k: nat | k < n ensures ps[k] != ps[n] && chunk !in ps[k].chunks {
      Apart(ps, vs, k, n);
    }
    assert PatchAt(ps, n, vs[n]);
    last.AddChunk(chunk, vs[n], c);
    forall k: nat | k < |ps| ensures PatchAt(ps, k, ws[k]) {
      assert old(PatchAt(ps, k, vs[k]));
      if k < n {
        ps[k].Kept(vs[k]);
      }
    }
  }

  method AddLine(ghost ps: seq<Patch>, ghost vs: seq<T.Patch>, ghost i: nat, ghost a: nat, chunk: PatchChunk,
                 line: PatchChunkLine, ghost l: T.Line)
    requires Are(ps, vs) && i < |ps| && a < |vs[i].chunks| && a < |ps[i].chunks| && chunk == ps[i].chunks[a]
    requires line.Is(l) && line !in AllLines(ps)
    modifies chunk`lines, line`owner, line`pos
    ensures Are(ps, T.WithLines(vs, i, a, [l]))
    ensures forall k :: 0 <= k < |ps| ==> ps[k].chunks == old(ps[k].chunks)
    ensures AllLines(ps) <= old(AllLines(ps)) + {line}
  {
    ghost var ws, c := T.WithLines(vs, i, a, [l]), vs[i].chunks[a];
    assert PatchAt(ps, i, vs[i]) && ps[i].ChunkAt(a, c);
    forall k: nat | k < |ps| ensures line !in ps[k].Lines() && (k != i ==> chunk !in ps[k].chunks) {
      assert line in ps[k].Lines() ==> line in AllLines(ps);
      if k != i {
        Apart(ps, vs, i, k);
      }
    }
    chunk.AddLine(line, c, l);
    ghost var p := ps[i];
    forall b: nat | b < |p.chunks| ensures p.ChunkAt(b, ws[i].chunks[b]) {
      assert old(p.ChunkAt(b, vs[i].chunks[b]));
      if b != a {
        p.chunks[b].Kept(vs[i].chunks[b]);
      }
    }
    forall k: nat | k < |ps| && k != i ensures PatchAt(ps, k, ws[k]) {
      assert old(PatchAt(ps, k, vs[k]));
      ps[k].Kept(vs[k]);
    }
  }

  /** The local variables of the parser stand for its state: patch is the last
      patch, chunk the one that lines are added to. */
  ghost predicate Parsing(s: T.State, ps: seq<Patch>, patch: Patch?, chunk: PatchChunk?)
    reads ps, Chunks(ps), AllLines(ps)
  {
    && T.StateOk(s) && Are(ps, s.patches)
    && (ps == [] <==> patch == null) && (ps != [] ==> patch == ps[|ps| - 1])
    && (s.chunk.None? <==> chunk == null)
    && (s.chunk.Some? ==> var (i, j) := s.chunk.value; j < |ps[i].chunks| && chunk == ps[i].chunks[j])
  }

  method AddHeader(ghost s: T.State, ghost ps: seq<Patch>, patch: Patch, chunk: PatchChunk?, srcPos: nat, dstPos: nat)
    returns (newChunk: PatchChunk)
    requires Parsing(s, ps, patch, chunk)
    modifies patch`chunks
    ensures T.Step(s, T.Start(srcPos, dstPos)).Ok?
    ensures Parsing(T.Step(s, T.Start(srcPos, dstPos)).value, ps, patch, newChunk) && fresh(newChunk)
    ensures fresh(AllLines(ps) - old(AllLines(ps)))
  {
    newChunk := new PatchChunk(srcPos, dstPos);
    forall k: nat | k < |ps| ensures PatchAt(ps, k, s.patches[k]) {
      assert old(PatchAt(ps, k, s.patches[k]));
      ps[k].Kept(s.patches[k]);
    }
    ghost var n, c := |ps| - 1, T.Chunk(srcPos, dstPos, []);
    assert PatchAt(ps, n, s.patches[n]);
    forall k: nat | k < n ensures ps[k] != patch {
      Apart(ps, s.patches, k, n);
    }
    AddChunk(ps, s.patches, patch, newChunk, c);
  }

  method NewLine(kind: T.Kind, text: string) returns (line: PatchChunkLine)
    ensures fresh(line) && line.Is(T.Line(kind, text))
  {
    line := new PatchChunkLine();
    match kind {
      case Src => line.SetSrc(text);
      case Dst => line.SetDst(text);
      case Both => line.SetBoth(text);
    }
  }

  method AddBody(ghost s: T.State, ghost ps: seq<Patch>, ghost patch: Patch?, chunk: PatchChunk, kind: T.Kind,
                 text: string)
    requires Parsing(s, ps, patch, chunk)
    modifies chunk`lines
    ensures T.Step(s, T.Body(T.Line(kind, text))).Ok?
    ensures Parsing(T.Step(s, T.Body(T.Line(kind, text))).value, ps, patch, chunk)
    ensures fresh(AllLines(ps) - old(AllLines(ps)))
  {
    var line := NewLine(kind, text);
    forall k: nat | k < |ps| ensures PatchAt(ps, k, s.patches[k]) {
      assert old(PatchAt(ps, k, s.patches[k]));
      ps[k].Kept(s.patches[k]);
    }
    ghost var (i, j) := s.chunk.value;
    assert PatchAt(ps, i, s.patches[i]);
    AddLine(ps, s.patches, i, j, chunk, line, T.Line(kind, text));
  }

  method StartPatch(ghost s: T.State, ps: seq<Patch>, ghost patch: Patch?, ghost chunk: PatchChunk?, name: string)
    returns (patchset: seq<Patch>, currentPatch: Patch)
    requires Parsing(s, ps, patch, chunk)
    ensures T.Step(s, T.SrcFile(name)).Ok?
    ensures Parsing(T.Step(s, T.SrcFile(name)).value, patchset, currentPatch, chunk) && fresh(currentPatch)
    ensures fresh(AllLines(patchset) - old(AllLines(ps)))
  {
    patchset, currentPatch := NewPatch(ps, s.patches, name);
  }

  method ChangeDst(ghost s: T.State, ghost ps: seq<Patch>, patch: Patch, ghost chunk: PatchChunk?, name: string)
    requires Parsing(s, ps, patch, chunk)
    modifies patch`dst
    ensures T.Step(s, T.DstFile(name)).Ok?
    ensures Parsing(T.Step(s, T.DstFile(name)).value, ps, patch, chunk)
    ensures fresh(AllLines(ps) - old(AllLines(ps)))
  {
    SetDst(ps, s.patches, patch, name);
  }

  /** The error that the exceptional cases end with. */
  ghost function ErrorOf(s: T.State, f: T.Form): Option<T.Error>
    requires T.StateOk(s)
  {
    match T.Step(s, f)
    case Ok(_) => None
    case Err(e) => Some(e)
  }

  /** The last three patterns. */
  function MatchBody(line: string): (r: Option<T.Line>)
    requires T.Rest("--- ", line).None? && T.Rest("+++ ", line).None? && T.Header(line).None?
    ensures T.Classify(line) == if r.Some? then T.Body(r.value) else T.Unknown
  {
    var src, dst, both := T.Rest("-", line), T.Rest("+", line), T.Rest(" ", line);
    if src.Some? then Some(T.Line(T.Src, src.value))
    else if dst.Some? then Some(T.Line(T.Dst, dst.value))
    else if both.Some? then Some(T.Line(T.Both, both.value))
    else None
  }

  /** The body of the line loop: the six patterns are tried one after the other. */
  method ParseLine(line: string, ghost s: T.State, ps: seq<Patch>, patch: Patch?, chunk: PatchChunk?)
    returns (error: Option<T.Error>, patchset: seq<Patch>, currentPatch: Patch?, currentChunk: PatchChunk?)
    requires Parsing(s, ps, patch, chunk)
    modifies (if patch == null then {} else {patch}), (if chunk == null then {} else {chunk})
    ensures error == ErrorOf(s, T.Classify(line))
    ensures error.None? ==> Parsing(T.Step(s, T.Classify(line)).value, patchset, currentPatch, currentChunk)
    ensures error.None? ==> fresh(AllLines(patchset) - old(AllLines(ps)))
    ensures currentPatch == patch || (currentPatch != null && fresh(currentPatch))
    ensures currentChunk == chunk || (currentChunk != null && fresh(currentChunk))
  {
    error, patchset, currentPatch, currentChunk := None, ps, patch, chunk;
    var m := T.Rest("--- ", line);
    if m.Some? {
      assert T.Classify(line) == T.SrcFile(m.value);
      patchset, currentPatch := StartPatch(s, ps, patch, chunk, m.value);
      return;
    }
    m := T.Rest("+++ ", line);
    if m.Some? {
      assert T.Classify(line) == T.DstFile(m.value);
      if currentPatch == null {
        error := Some(T.AttributeError);
        return;
      }
      ChangeDst(s, ps, currentPatch, chunk, m.value);
      return;
    }
    var h := T.Header(line);
    if h.Some? {
      assert T.Classify(line) == T.Start(h.value.0, h.value.1);
      if currentPatch == null {
        error := Some(T.AttributeError);
        return;
      }
      currentChunk := AddHeader(s, ps, currentPatch, chunk, h.value.0, h.value.1);
      return;
    }
    var body := MatchBody(line);
    if body.None? {
      error := Some(T.Exception);
      return;
    }
    if currentChunk == null {
      error := Some(T.UnboundLocalError);
      return;
    }
    AddBody(s, ps, patch, currentChunk, body.value.kind, body.value.text);
  }

  lemma ParseStep(lines: seq<string>, i: nat, s: T.State)
    requires i < |lines| && T.Feed(T.START, T.ClassifyAll(lines[..i])) == T.Ok(s)
    ensures T.Feed(T.START, T.ClassifyAll(lines[..i + 1])) == T.Step(s, T.Classify(lines[i]))
    ensures T.Step(s, T.Classify(lines[i])).Err? ==> T.Parse(lines) == T.Err(T.Step(s, T.Classify(lines[i])).error)
  {
    assert lines[..i + 1] == lines[..i] + [lines[i]];
    T.ClassifyConcat(lines[..i], [lines[i]]);
    T.ClassifyOne(lines[i]);
    T.FeedConcat(T.START, T.ClassifyAll(lines[..i]), [T.Classify(lines[i])]);
    T.FeedOne(s, T.Classify(lines[i]));
    assert lines == lines[..i + 1] + lines[i + 1..];
    T.ClassifyConcat(lines[..i + 1], lines[i + 1..]);
    T.FeedConcat(T.START, T.ClassifyAll(lines[..i + 1]), T.ClassifyAll(lines[i + 1..]));
  }

  /** parse_patchset: all objects are new, and they stand for what the lines
      say; or the first line that cannot be read determines the error. */
  method Parse(lines: seq<string>) returns (r: T.Result<seq<Patch>>)
    ensures r.Ok? <==> T.Parse(lines).Ok?
    ensures r.Ok? ==> Are(r.value, T.Parse(lines).value)
    ensures r.Err? ==> r.error == T.Parse(lines).error
    ensures r.Ok? ==> fresh(AllLines(r.value))
  {
    var patchset: seq<Patch>, currentPatch: Patch?, currentChunk: PatchChunk? := [], null, null;
    ghost var s := T.START;
    for i := 0 to |lines|
      invariant T.Feed(T.START, T.ClassifyAll(lines[..i])) == T.Ok(s)
      invariant Parsing(s, patchset, currentPatch, currentChunk)
      invariant currentPatch != null ==> fresh(currentPatch)
      invariant currentChunk != null ==> fresh(currentChunk)
      invariant fresh(AllLines(patchset))
    {
      ParseStep(lines, i, s);
      var error;
      error, patchset, currentPatch, currentChunk := ParseLine(lines[i], s, patchset, currentPatch, currentChunk);
      if error.Some? {
        return T.Err(error.value);
      }
      s := T.Step(s, T.Classify(lines[i])).value;
    }
    assert lines[..|lines|] == lines;
    r := T.Ok(patchset);
  }

  /** remove_trailing_whitespace_changes: parse, then rewrite. */
  method RemoveTrailingWhitespaceChanges(lines: seq<string>) returns (r: T.Result<seq<Patch>>)
    ensures r.Ok? <==> T.Parse(lines).Ok?
    ensures r.Ok? ==> Are(r.value, R.Rewrite(T.Parse(lines).value))
    ensures r.Err? ==> r.error == T.Parse(lines).error
  {
    r := Parse(lines);
    if r.Ok? {
      RewriteAll(r.value, T.Parse(lines).value);
    }
  }
}
