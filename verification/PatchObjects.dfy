/** The mutable objects of utils/check-style.py: files, lines, chunks and
    patches, how they are written and how their lines are rewritten. */
module PatchObjects {
  import opened Basics
  import T = PatchText
  import R = PatchRewrite

  /** A file open for writing: the strings written to it. */
  class File {
    var written: seq<string>

    constructor ()
      ensures written == []
    {
      written := [];
    }

    method Write(s: string)
      modifies this
      ensures written == old(written) + [s]
    {
      written := written + [s];
    }
  }

  /** kind is None where the source has type 0.  owner and pos say where the
      line belongs: objects in different places are different objects. */
  class PatchChunkLine {
    var kind: Option<T.Kind>
    var text: string
    ghost var owner: PatchChunk?
    ghost var pos: nat

    constructor ()
      ensures kind.None? && text == ""
    {
      kind, text := None, "";
    }

    method SetSrc(line: string)
      modifies this`kind, this`text
      ensures Is(T.Line(T.Src, line))
    {
      kind, text := Some(T.Src), line;
    }

    method SetDst(line: string)
      modifies this`kind, this`text
      ensures Is(T.Line(T.Dst, line))
    {
      kind, text := Some(T.Dst), line;
    }

    method SetBoth(line: string)
      modifies this`kind, this`text
      ensures Is(T.Line(T.Both, line))
    {
      kind, text := Some(T.Both), line;
    }

    method AppendToLine(s: string)
      modifies this`text
      ensures text == old(text) + s
    {
      text := text + s;
    }

    predicate IsSrc()
      reads this
    {
      kind == Some(T.Src) || kind == Some(T.Both)
    }

    predicate IsDst()
      reads this
    {
      kind == Some(T.Dst) || kind == Some(T.Both)
    }

    ghost predicate Is(v: T.Line)
      reads this
    {
      kind == Some(v.kind) && text == v.text
    }

    /** False is the exception for a line that was never set. */
    method Write(f: File) returns (ok: bool)
      modifies f
      ensures ok <==> kind.Some?
      ensures f.written == old(f.written) + if ok then [T.LineText(T.Line(kind.value, text))] else []
    {
      if kind.None? {
        return false;
      }
      f.Write(T.LinePrefix(kind.value) + text + "\n");
      return true;
    }
  }

  class PatchChunk {
    var lines: seq<PatchChunkLine>
    var srcPos: nat
    var dstPos: nat
    ghost var owner: Patch?
    ghost var pos: nat

    constructor (src: nat, dst: nat)
      ensures lines == [] && srcPos == src && dstPos == dst
    {
      lines, srcPos, dstPos := [], src, dst;
    }

    ghost predicate LineAt(k: nat, l: T.Line)
      requires k < |lines|
      reads this, lines
    {
      lines[k].owner == this && lines[k].pos == k && lines[k].Is(l)
    }

    /** The chunk stands for v. */
    ghost predicate Is(v: T.Chunk)
      reads this, lines
    {
      && srcPos == v.srcPos && dstPos == v.dstPos && |lines| == |v.lines|
      && forall k: nat {:trigger LineAt(k, v.lines[k])} :: k < |lines| ==> LineAt(k, v.lines[k])
    }

    twostate lemma Kept(v: T.Chunk)
      requires old(Is(v)) && unchanged(this`lines, this`srcPos, this`dstPos)
      requires forall l :: l in lines ==> unchanged(l)
      ensures Is(v)
    {
      forall k: nat | k < |lines| ensures LineAt(k, v.lines[k]) {
        assert old(LineAt(k, v.lines[k]));
        assert lines[k] in lines;
      }
    }

    lemma Owned(v: T.Chunk)
      requires Is(v)
      ensures forall l :: l in lines ==> l.owner == this
    {
      forall k: nat | k < |lines| ensures lines[k].owner == this {
        assert LineAt(k, v.lines[k]);
      }
    }

    method AddLine(line: PatchChunkLine, ghost v: T.Chunk, ghost l: T.Line)
      requires Is(v) && line.Is(l) && line !in lines
      modifies this`lines, line`owner, line`pos
      ensures lines == old(lines) + [line] && Is(v.(lines := v.lines + [l]))
    {
      ghost var w := v.(lines := v.lines + [l]);
      forall k: nat | k < |lines| ensures lines[k] != line && LineAt(k, v.lines[k]) {
        assert lines[k] in lines;
      }
      line.owner, line.pos := this, |lines|;
      lines := lines + [line];
      forall k: nat | k < |lines| ensures LineAt(k, w.lines[k]) {
        if k < |v.lines| {
          assert old(LineAt(k, v.lines[k]));
        }
      }
    }

    /** These are the line objects at the given positions. */
    ghost predicate At(objects: seq<PatchChunkLine>, p: seq<nat>)
      reads this
    {
      |objects| == |p| && forall k :: 0 <= k < |p| ==> p[k] < |lines| && objects[k] == lines[p[k]]
    }

    /** The line objects of the source side: the objects themselves, so that a
        context line is in both lists. */
    method SrcLines(ghost v: T.Chunk) returns (src: seq<PatchChunkLine>)
      requires Is(v)
      ensures At(src, R.SrcIndex(v.lines))
    {
      src := [];
      for i := 0 to |lines|
        invariant |src| == |R.SrcIndex(v.lines[..i])|
        invariant forall k :: 0 <= k < |src| ==> src[k] == lines[R.SrcIndex(v.lines[..i])[k]]
      {
        assert v.lines[..i + 1][..i] == v.lines[..i];
        assert LineAt(i, v.lines[i]);
        if lines[i].IsSrc() {
          src := src + [lines[i]];
        }
      }
      assert v.lines[..|lines|] == v.lines;
    }

    method DstLines(ghost v: T.Chunk) returns (dst: seq<PatchChunkLine>)
      requires Is(v)
      ensures At(dst, R.DstIndex(v.lines))
    {
      dst := [];
      for i := 0 to |lines|
        invariant |dst| == |R.DstIndex(v.lines[..i])|
        invariant forall k :: 0 <= k < |dst| ==> dst[k] == lines[R.DstIndex(v.lines[..i])[k]]
      {
        assert v.lines[..i + 1][..i] == v.lines[..i];
        assert LineAt(i, v.lines[i]);
        if lines[i].IsDst() {
          dst := dst + [lines[i]];
        }
      }
      assert v.lines[..|lines|] == v.lines;
    }

    method WriteLines(f: File, ghost v: T.Chunk)
      requires Is(v)
      modifies f
      ensures f.written == old(f.written) + T.LineTexts(v.lines)
    {
      for i := 0 to |lines|
        invariant f.written == old(f.written) + T.LineTexts(v.lines[..i])
      {
        assert v.lines[..i + 1][..i] == v.lines[..i];
        assert LineAt(i, v.lines[i]);
        var ok := lines[i].Write(f);
      }
      assert v.lines[..|lines|] == v.lines;
    }

    /** The counts in the header are the lengths of the two sides. */
    method Write(f: File, ghost v: T.Chunk)
      requires Is(v)
      modifies f
      ensures f.written == old(f.written) + ([T.HeaderText(v)] + T.LineTexts(v.lines))
    {
      var src := SrcLines(v);
      var dst := DstLines(v);
      var s, d := T.Decimal(|src|), T.Decimal(|dst|);
      f.Write("@@ -" + (T.Decimal(srcPos) + ("," + (s + (" +" + (T.Decimal(dstPos) + ("," + (d + " @@\n"))))))));
      WriteLines(f, v);
      Associate(old(f.written), [T.HeaderText(v)], T.LineTexts(v.lines));
    }

    /** Comparing the line at a with the line at b; they can be the same object. */
    method Compare(ghost v: T.Chunk, ghost a: nat, ghost b: nat, s: PatchChunkLine, d: PatchChunkLine)
      requires Is(v) && a < |lines| && b < |lines| && s == lines[a] && d == lines[b]
      modifies d`text
      ensures Is(v.(lines := R.Compare(v.lines, a, b)))
    {
      assert LineAt(a, v.lines[a]) && LineAt(b, v.lines[b]);
      forall k: nat | k < |lines| && k != b ensures lines[k] != d {
        assert LineAt(k, v.lines[k]);
      }
      ghost var w := v.(lines := R.Compare(v.lines, a, b));
      var line := s.text;
      if line != [] && R.BlankChar(line[|line| - 1]) && line[..|line| - 1] == d.text {
        d.AppendToLine([line[|line| - 1]]);
      }
      forall k: nat | k < |lines| ensures LineAt(k, w.lines[k]) {
        assert old(LineAt(k, v.lines[k]));
      }
    }

    /** The loop over the pairs; true when it runs out of destination lines. */
    method ComparePairs(ghost v: T.Chunk, src: seq<PatchChunkLine>, dst: seq<PatchChunkLine>,
                        ghost si: seq<nat>, ghost di: seq<nat>)
      returns (stopped: bool)
      requires Is(v) && At(src, si) && At(dst, di) && R.SrcAt(v.lines, si) && R.DstAt(v.lines, di)
      modifies lines
      ensures Is(v.(lines := R.Compared(v.lines, si, di, Min(|si|, |di|))))
      ensures stopped <==> |di| < |si|
    {
      ghost var now := v;
      for i := 0 to |src|
        invariant i <= |dst| && At(src, si) && At(dst, di) && lines == old(lines)
        invariant Is(now) && now == v.(lines := R.Compared(v.lines, si, di, i))
      {
        if i >= |dst| {
          return true;
        }
        Compare(now, si[i], di[i], src[i], dst[i]);
        now := v.(lines := R.Compare(now.lines, si[i], di[i]));
      }
      return false;
    }

    /** Compare the k-th source line with the k-th destination line for every k;
        true when there is no such destination line. */
    method Rewrite(ghost v: T.Chunk) returns (stopped: bool)
      requires Is(v)
      modifies lines
      ensures Is(v.(lines := R.RewriteLines(v.lines)))
      ensures stopped <==> R.Short(v.lines)
    {
      var src := SrcLines(v);
      var dst := DstLines(v);
      stopped := ComparePairs(v, src, dst, R.SrcIndex(v.lines), R.DstIndex(v.lines));
    }
  }

  /** What the loop over the chunks ends with when done is rewritten already. */
  ghost function EndsWith(done: seq<T.Chunk>, rest: seq<T.Chunk>): (seq<T.Chunk>, bool) {
    (done + R.RewriteChunks(rest).0, R.RewriteChunks(rest).1)
  }

  lemma NothingDone(cs: seq<T.Chunk>)
    ensures EndsWith([], cs) == R.RewriteChunks(cs) && [] + cs == cs
  {
    assert [] + R.RewriteChunks(cs).0 == R.RewriteChunks(cs).0;
  }

  lemma NextChunk(done: seq<T.Chunk>, rest: seq<T.Chunk>, c: T.Chunk)
    requires rest != [] && c == rest[0].(lines := R.RewriteLines(rest[0].lines))
    ensures (done + rest)[|done| := c] == done + [c] + rest[1..]
    ensures EndsWith(done, rest) ==
            if R.Short(rest[0].lines) then (done + [c] + rest[1..], true) else EndsWith(done + [c], rest[1..])
  {
    if R.Short(rest[0].lines) {
      Associate(done, [c], rest[1..]);
    } else {
      Associate(done, [c], R.RewriteChunks(rest[1..]).0);
    }
    UpdateFirst(done, rest, c);
  }

  lemma UpdateFirst<X>(done: seq<X>, rest: seq<X>, x: X)
    requires rest != []
    ensures (done + rest)[|done| := x] == done + [x] + rest[1..]
  {
  }

  class Patch {
    var src: string
    var dst: string
    var chunks: seq<PatchChunk>
    ghost var pos: nat

    constructor ()
      ensures src == "" && dst == "" && chunks == []
    {
      src, dst, chunks := "", "", [];
    }

    ghost function Lines(): set<PatchChunkLine>
      reads this, chunks
    {
      set c, l | c in chunks && l in c.lines :: l
    }

    ghost predicate ChunkAt(a: nat, v: T.Chunk)
      requires a < |chunks|
      reads this, chunks, chunks[a].lines
    {
      chunks[a].owner == this && chunks[a].pos == a && chunks[a].Is(v)
    }

    /** The patch stands for v. */
    ghost predicate Is(v: T.Patch)
      reads this, chunks, Lines()
    {
      && src == v.src && dst == v.dst && |chunks| == |v.chunks|
      && (forall a, l :: 0 <= a < |chunks| && l in chunks[a].lines ==> l in Lines())
      && forall a: nat :: a < |chunks| ==> ChunkAt(a, v.chunks[a])
    }

    twostate lemma Kept(v: T.Patch)
      requires old(Is(v)) && unchanged(this`src, this`dst, this`chunks)
      requires forall c :: c in chunks ==> unchanged(c)
      requires forall l :: l in old(Lines()) ==> unchanged(l)
      ensures Is(v)
    {
      forall a: nat | a < |chunks| ensures ChunkAt(a, v.chunks[a]) {
        assert old(ChunkAt(a, v.chunks[a]));
        assert chunks[a] in chunks;
        assert forall l :: l in old(chunks[a].lines) ==> l in old(Lines());
        chunks[a].Kept(v.chunks[a]);
      }
    }

    /** The chunks of the patch belong to it, and the lines to its chunks. */
    lemma Owned(v: T.Patch)
      requires Is(v)
      ensures forall c :: c in chunks ==> c.owner == this && c in chunks && (forall l :: l in c.lines ==> l.owner == c)
    {
      forall a: nat | a < |chunks|
        ensures chunks[a].owner == this && forall l :: l in chunks[a].lines ==> l.owner == chunks[a] {
        assert ChunkAt(a, v.chunks[a]);
        chunks[a].Owned(v.chunks[a]);
      }
    }

    /** Chunks in different places share no line object. */
    lemma Disjoint(v: T.Patch, a: nat, b: nat)
      requires Is(v) && a < |chunks| && b < |chunks| && a != b
      ensures chunks[a] != chunks[b] && forall l :: l in chunks[a].lines ==> l !in chunks[b].lines
    {
      assert ChunkAt(a, v.chunks[a]) && ChunkAt(b, v.chunks[b]);
      chunks[a].Owned(v.chunks[a]);
      chunks[b].Owned(v.chunks[b]);
    }

    method AddChunk(chunk: PatchChunk, ghost v: T.Patch, ghost c: T.Chunk)
      requires Is(v) && chunk.Is(c) && chunk !in chunks
      modifies this`chunks, chunk`owner, chunk`pos
      ensures chunks == old(chunks) + [chunk] && Is(v.(chunks := v.chunks + [c]))
    {
      forall a: nat | a < |chunks| ensures chunks[a] != chunk && ChunkAt(a, v.chunks[a]) {
        assert chunks[a] in chunks;
      }
      ghost var w := v.(chunks := v.chunks + [c]);
      chunk.owner, chunk.pos := this, |chunks|;
      chunks := chunks + [chunk];
      forall a: nat | a < |chunks| ensures ChunkAt(a, w.chunks[a]) {
        chunks[a].Kept(w.chunks[a]);
      }
    }

    method WriteChunks(f: File, ghost v: T.Patch)
      requires Is(v)
      modifies f
      ensures f.written == old(f.written) + T.ChunkTexts(v.chunks)
    {
      for i := 0 to |chunks|
        invariant f.written == old(f.written) + T.ChunkTexts(v.chunks[..i])
      {
        ghost var before, texts := f.written, [T.HeaderText(v.chunks[i])] + T.LineTexts(v.chunks[i].lines);
        assert ChunkAt(i, v.chunks[i]);
        chunks[i].Write(f, v.chunks[i]);
        assert f.written == before + texts;
        assert T.ChunkTexts(v.chunks[..i + 1]) == T.ChunkTexts(v.chunks[..i]) + texts by {
          assert v.chunks[..i + 1][..i] == v.chunks[..i];
        }
        Associate(old(f.written), T.ChunkTexts(v.chunks[..i]), texts);
      }
      assert v.chunks[..|chunks|] == v.chunks;
    }

    method Write(f: File, ghost v: T.Patch)
      requires Is(v)
      modifies f
      ensures f.written == old(f.written) + T.Print([v])
    {
      f.Write("--- " + src + "\n");
      f.Write("+++ " + dst + "\n");
      WriteChunks(f, v);
      assert [v][..0] == [];
      Associate(old(f.written), ["--- " + src + "\n", "+++ " + dst + "\n"], T.ChunkTexts(v.chunks));
    }

    /** Rewrite the j-th chunk; the others stay. */
    method RewriteChunk(j: nat, ghost v: T.Patch) returns (stopped: bool)
      requires Is(v) && j < |chunks|
      modifies chunks[j].lines
      ensures Is(v.(chunks := v.chunks[j := v.chunks[j].(lines := R.RewriteLines(v.chunks[j].lines))]))
      ensures stopped <==> R.Short(v.chunks[j].lines)
    {
      assert ChunkAt(j, v.chunks[j]);
      forall a: nat | a < |chunks| && a != j ensures forall l :: l in chunks[a].lines ==> l !in chunks[j].lines {
        Disjoint(v, a, j);
      }
      stopped := chunks[j].Rewrite(v.chunks[j]);
      ghost var w := v.(chunks := v.chunks[j := v.chunks[j].(lines := R.RewriteLines(v.chunks[j].lines))]);
      forall a: nat | a < |chunks| ensures ChunkAt(a, w.chunks[a]) {
        if a != j {
          chunks[a].Kept(v.chunks[a]);
        }
      }
    }

    /** Rewrite the chunks up to the first short one. */
    method Rewrite(ghost v: T.Patch) returns (stopped: bool)
      requires Is(v)
      modifies Lines()
      ensures Is(v.(chunks := R.RewriteChunks(v.chunks).0)) && stopped == R.RewriteChunks(v.chunks).1
    {
      ghost var done: seq<T.Chunk>, rest, now := [], v.chunks, v;
      NothingDone(rest);
      for j := 0 to |chunks|
        invariant |done| == j && |rest| == |chunks| - j && now == v.(chunks := done + rest) && Is(now)
        invariant EndsWith(done, rest) == R.RewriteChunks(v.chunks)
      {
        ghost var c := rest[0].(lines := R.RewriteLines(rest[0].lines));
        NextChunk(done, rest, c);
        stopped := RewriteChunk(j, now);
        done, rest := done + [c], rest[1..];
        now := v.(chunks := done + rest);
        if stopped {
          return;
        }
      }
      return false;
    }
  }
}
