/** The use that indent of utils/check-style.py makes of the patch list: read
    a diff, put the lost blanks back, and write its first patch. */
module PatchFilter {
  import opened Basics
  import T = PatchText
  import R = PatchRewrite
  import RT = PatchRoundTrip
  import O = PatchObjects
  import S = PatchSets

  /** The diff is unchanged, in the file, but for the blanks put back; an error
      or an empty diff writes nothing. */
  method FilterDiff(diff: seq<string>, f: O.File) returns (error: Option<T.Error>)
    modifies f
    ensures error.None? <==> T.Parse(diff).Ok?
    ensures error.Some? ==> error.value == T.Parse(diff).error && f.written == old(f.written)
    ensures error.None? ==> f.written == old(f.written) + T.Print(First(R.Rewrite(T.Parse(diff).value)))
    ensures error.None? ==>
              var ps, out := T.Parse(diff).value, f.written[|old(f.written)|..];
              T.Parse(out) == T.Ok(First(R.Rewrite(ps))) <==> ps == [] || NoHeaderMade(ps[0].chunks)
  {
    var r := S.RemoveTrailingWhitespaceChanges(diff);
    if r.Err? {
      return Some(r.error);
    }
    error := None;
    FilteredReadsBack(diff);
    if |r.value| != 0 {
      ghost var v := R.Rewrite(T.Parse(diff).value)[0];
      assert S.PatchAt(r.value, 0, v);
      r.value[0].Write(f, v);
    }
  }

  /** The first patch, if there is one. */
  function First<X>(s: seq<X>): seq<X> {
    if s == [] then [] else [s[0]]
  }

  lemma ChunkStaysClean(a: T.Chunk, b: T.Chunk)
    requires R.ChunkFrame(a, b) && RT.CleanChunk(a)
    ensures RT.CleanChunk(b)
  {
    forall i | 0 <= i < |b.lines| ensures RT.NoBreak(b.lines[i].text) {
      assert R.SameOrOneBlank(a.lines[i], b.lines[i]) && RT.NoBreak(a.lines[i].text);
    }
  }

  lemma {:induction false} ChunksStayClean(a: seq<T.Chunk>, b: seq<T.Chunk>)
    requires R.ChunksFrame(a, b) && forall i :: 0 <= i < |a| ==> RT.CleanChunk(a[i])
    ensures forall i :: 0 <= i < |b| ==> RT.CleanChunk(b[i])
  {
    if a != [] {
      ChunkStaysClean(a[0], b[0]);
      ChunksStayClean(a[1..], b[1..]);
      assert b == [b[0]] + b[1..];
    }
  }

  lemma {:induction false} StaysClean(a: seq<T.Patch>, b: seq<T.Patch>)
    requires R.Frame(a, b) && RT.Clean(a)
    ensures RT.Clean(b)
  {
    if a != [] {
      assert RT.CleanPatch(a[0]);
      ChunksStayClean(a[0].chunks, b[0].chunks);
      StaysClean(a[1..], b[1..]);
      assert b == [b[0]] + b[1..];
    }
  }

  // ---------- which lines become headers ----------

  /** Told from the original lines: some comparison before the k-th has extended
      the line at a. */
  ghost predicate ExtendedBefore(ls: seq<T.Line>, src: seq<nat>, dst: seq<nat>, k: nat, a: nat)
    requires R.SrcAt(ls, src) && R.DstAt(ls, dst) && k <= |src| && k <= |dst|
    decreases k, 0
  {
    exists j: nat :: j < k && dst[j] == a && Extends(ls, src, dst, j)
  }

  /** The k-th comparison extends its destination line.  A source line that has
      been extended itself must have been equal to the destination line. */
  ghost predicate Extends(ls: seq<T.Line>, src: seq<nat>, dst: seq<nat>, k: nat)
    requires R.SrcAt(ls, src) && R.DstAt(ls, dst) && k < |src| && k < |dst|
    decreases k, 1
  {
    var s, d := ls[src[k]].text, ls[dst[k]].text;
    if ExtendedBefore(ls, src, dst, k, src[k]) then s == d else R.Trails(s, d)
  }

  ghost predicate MadeBefore(ls: seq<T.Line>, src: seq<nat>, dst: seq<nat>, k: nat, a: nat)
    requires R.SrcAt(ls, src) && R.DstAt(ls, dst) && k <= |src| && k <= |dst|
    decreases k, 0
  {
    exists j: nat :: j < k && dst[j] == a && Makes(ls, src, dst, j)
  }

  /** The k-th comparison turns "++" into "++ ": it meets the source line "++ ",
      or one that an earlier comparison has turned into that. */
  ghost predicate Makes(ls: seq<T.Line>, src: seq<nat>, dst: seq<nat>, k: nat)
    requires R.SrcAt(ls, src) && R.DstAt(ls, dst) && k < |src| && k < |dst|
    decreases k, 1
  {
    ls[dst[k]].text == "++" &&
    if ExtendedBefore(ls, src, dst, k, src[k]) then MadeBefore(ls, src, dst, k, src[k]) else ls[src[k]].text == "++ "
  }

  /** What has become of the line at a after n comparisons. */
  ghost predicate After(ls: seq<T.Line>, src: seq<nat>, dst: seq<nat>, n: nat, a: nat)
    requires R.SrcAt(ls, src) && R.DstAt(ls, dst) && n <= |src| && n <= |dst| && a < |ls|
  {
    var now := R.Compared(ls, src, dst, n)[a];
    && now.kind == ls[a].kind
    && (if ExtendedBefore(ls, src, dst, n, a) then exists b :: R.BlankChar(b) && now.text == ls[a].text + [b]
        else now == ls[a])
    && (MadeBefore(ls, src, dst, n, a) <==> ExtendedBefore(ls, src, dst, n, a) && now.text == "++ ")
  }

  lemma OneTurn(ls: seq<T.Line>, src: seq<nat>, dst: seq<nat>, k: nat)
    requires R.SrcAt(ls, src) && R.DstAt(ls, dst) && k < |src| && k < |dst| && After(ls, src, dst, k, src[k])
    ensures var s, d := R.Compared(ls, src, dst, k)[src[k]].text, ls[dst[k]].text;
      && (R.Trails(s, d) <==> Extends(ls, src, dst, k))
      && (Makes(ls, src, dst, k) <==> R.Trails(s, d) && s == "++ ")
  {
    var s, d := R.Compared(ls, src, dst, k)[src[k]].text, ls[dst[k]].text;
    if ExtendedBefore(ls, src, dst, k, src[k]) {
      assert s[..|s| - 1] == ls[src[k]].text;
    }
    assert "++ "[..2] == "++";
    assert R.Trails(s, d) ==> s == d + [s[|s| - 1]];
  }

  lemma BeforeSnoc(ls: seq<T.Line>, src: seq<nat>, dst: seq<nat>, k: nat, a: nat)
    requires R.SrcAt(ls, src) && R.DstAt(ls, dst) && k < |src| && k < |dst|
    ensures ExtendedBefore(ls, src, dst, k + 1, a) <==>
            ExtendedBefore(ls, src, dst, k, a) || (dst[k] == a && Extends(ls, src, dst, k))
    ensures MadeBefore(ls, src, dst, k + 1, a) <==>
            MadeBefore(ls, src, dst, k, a) || (dst[k] == a && Makes(ls, src, dst, k))
    ensures dst[k] == a ==> !ExtendedBefore(ls, src, dst, k, a) && !MadeBefore(ls, src, dst, k, a)
  {
  }

  lemma {:induction false} AfterTurns(ls: seq<T.Line>, src: seq<nat>, dst: seq<nat>, n: nat, a: nat)
    requires R.SrcAt(ls, src) && R.DstAt(ls, dst) && n <= |src| && n <= |dst| && a < |ls|
    ensures After(ls, src, dst, n, a)
  {
    if n > 0 {
      var k := n - 1;
      AfterTurns(ls, src, dst, k, a);
      AfterTurns(ls, src, dst, k, src[k]);
      AfterTurns(ls, src, dst, k, dst[k]);
      OneTurn(ls, src, dst, k);
      BeforeSnoc(ls, src, dst, k, a);
      BeforeSnoc(ls, src, dst, k, dst[k]);
    }
  }

  /** Some added line of the chunk becomes "++ ". */
  ghost predicate MakesHeader(ls: seq<T.Line>) {
    exists k: nat :: k < R.Pairs(ls) && ls[R.DstIndex(ls)[k]].kind.Dst? && Makes(ls, R.SrcIndex(ls), R.DstIndex(ls), k)
  }

  lemma RewrittenLine(ls: seq<T.Line>, a: nat)
    requires a < |ls| && !RT.LooksLikeHeader(ls[a])
    ensures R.RewriteLines(ls)[a].kind == ls[a].kind
    ensures RT.LooksLikeHeader(R.RewriteLines(ls)[a]) <==>
            ls[a].kind.Dst? && MadeBefore(ls, R.SrcIndex(ls), R.DstIndex(ls), R.Pairs(ls), a)
  {
    var src, dst, n := R.SrcIndex(ls), R.DstIndex(ls), R.Pairs(ls);
    AfterTurns(ls, src, dst, n, a);
    R.RewriteLinesFrame(ls);
    if ExtendedBefore(ls, src, dst, n, a) {
      var b :| R.BlankChar(b) && R.RewriteLines(ls)[a].text == ls[a].text + [b];
      OneLonger("++ ", ls[a].text, b);
      OneLonger("-- ", ls[a].text, b);
    }
  }

  lemma OneLonger(head: string, t: string, b: char)
    ensures head <= t + [b] <==> head <= t || head == t + [b]
  {
    if |head| <= |t| {
      assert (t + [b])[..|head|] == t[..|head|];
    }
  }

  lemma RewrittenChunk(c: T.Chunk)
    requires RT.PlainChunk(c)
    ensures RT.PlainChunk(c.(lines := R.RewriteLines(c.lines))) <==> !MakesHeader(c.lines)
  {
    var ls, qs, dst := c.lines, R.RewriteLines(c.lines), R.DstIndex(c.lines);
    forall a: nat | a < |ls| ensures !RT.LooksLikeHeader(ls[a]) {
    }
    if MakesHeader(ls) {
      var k: nat :| k < R.Pairs(ls) && ls[dst[k]].kind.Dst? && Makes(ls, R.SrcIndex(ls), dst, k);
      RewrittenLine(ls, dst[k]);
      assert RT.LooksLikeHeader(qs[dst[k]]);
    } else {
      forall a: nat | a < |qs| ensures !RT.LooksLikeHeader(qs[a]) {
        RewrittenLine(ls, a);
      }
    }
  }

  /** No chunk up to and including the first short one makes a header. */
  ghost predicate NoHeaderMade(cs: seq<T.Chunk>) {
    cs == [] || (!MakesHeader(cs[0].lines) && (R.Short(cs[0].lines) || NoHeaderMade(cs[1..])))
  }

  ghost predicate PlainChunks(cs: seq<T.Chunk>) {
    forall i :: 0 <= i < |cs| ==> RT.PlainChunk(cs[i])
  }

  lemma PlainChunksCons(c: T.Chunk, cs: seq<T.Chunk>)
    ensures PlainChunks([c] + cs) <==> RT.PlainChunk(c) && PlainChunks(cs)
  {
    var all := [c] + cs;
    assert all[0] == c && forall i :: 0 <= i < |cs| ==> cs[i] == all[i + 1];
  }

  lemma {:induction false} RewrittenChunks(cs: seq<T.Chunk>)
    requires PlainChunks(cs)
    ensures PlainChunks(R.RewriteChunks(cs).0) <==> NoHeaderMade(cs)
  {
    if cs != [] {
      var c, rest := cs[0], cs[1..];
      assert cs == [c] + rest;
      PlainChunksCons(c, rest);
      RewrittenChunk(c);
      RewrittenChunks(rest);
      PlainChunksCons(c.(lines := R.RewriteLines(c.lines)), if R.Short(c.lines) then rest else R.RewriteChunks(rest).0);
    }
  }

  /** What is written for a diff that is read as ps reads back exactly when no
      chunk of the first patch, up to the first short one, has an added line
      "++" that meets "++ ", be it an original source line or one made so. */
  lemma RewrittenReadsBack(ps: seq<T.Patch>)
    requires RT.Clean(ps) && RT.Plain(ps)
    ensures var qs := First(R.Rewrite(ps));
      T.Parse(T.Print(qs)) == T.Ok(qs) <==> ps == [] || NoHeaderMade(ps[0].chunks)
  {
    R.RewriteFrame(ps);
    StaysClean(ps, R.Rewrite(ps));
    var qs := First(R.Rewrite(ps));
    RT.RoundTripIff(qs);
    if ps != [] {
      assert RT.PlainPatch(ps[0]);
      RewrittenChunks(ps[0].chunks);
      assert RT.Plain(qs) <==> RT.PlainPatch(qs[0]);
    }
  }

  /** For every diff that can be read at all, in whatever way it was made. */
  lemma FilteredReadsBack(diff: seq<string>)
    requires T.Parse(diff).Ok?
    ensures var ps := T.Parse(diff).value; var qs := First(R.Rewrite(ps));
      T.Parse(T.Print(qs)) == T.Ok(qs) <==> ps == [] || NoHeaderMade(ps[0].chunks)
  {
    RT.ParsedIsPlain(diff);
    RewrittenReadsBack(T.Parse(diff).value);
  }

  lemma IndexTwo(a: T.Line, b: T.Line)
    requires a.kind.Src? && b.kind.Dst?
    ensures R.SrcIndex([a, b]) == [0] && R.DstIndex([a, b]) == [1]
  {
    var ls := [a, b];
    assert ls[..1] == [a] && [a][..0] == [];
    assert R.SrcIndex([a]) == [0] && R.DstIndex([a]) == [];
  }

  lemma OnePair(a: T.Line, b: T.Line)
    requires a.kind.Src? && b.kind.Dst? && R.Trails(a.text, b.text)
    ensures R.RewriteLines([a, b]) == [a, b.(text := a.text)]
  {
    var ls := [a, b];
    IndexTwo(a, b);
    assert R.Compared(ls, [0], [1], 0) == ls;
    assert R.Pairs(ls) == 1;
    assert b.text + [a.text[|a.text| - 1]] == a.text;
  }

  lemma IndexThree(a: T.Line, b: T.Line, c: T.Line)
    requires a.kind.Src? && b.kind.Both? && c.kind.Dst?
    ensures R.SrcIndex([a, b, c]) == [0, 1] && R.DstIndex([a, b, c]) == [1, 2] && R.Pairs([a, b, c]) == 2
  {
    R.IndexTwo(a, b);
    assert [a, b, c][..2] == [a, b];
  }

  /** An added line "++" can become a header through a context line that the
      removed line "++ " has extended first ... */
  lemma ContextPassesOn(a: T.Line, b: T.Line, c: T.Line)
    requires a == T.Line(T.Src, "++ ") && b == T.Line(T.Both, "++") && c == T.Line(T.Dst, "++")
    ensures MakesHeader([a, b, c])
  {
    var ls := [a, b, c];
    IndexThree(a, b, c);
    assert Makes(ls, [0, 1], [1, 2], 0);
    assert R.Trails("++ ", "++");
    assert Extends(ls, [0, 1], [1, 2], 0);
    assert Makes(ls, [0, 1], [1, 2], 1);
  }

  /** ... and is saved by a context line "++ " that has grown longer first. */
  lemma ContextSaves(a: T.Line, b: T.Line, c: T.Line)
    requires a == T.Line(T.Src, "++  ") && b == T.Line(T.Both, "++ ") && c == T.Line(T.Dst, "++")
    ensures !MakesHeader([a, b, c])
  {
    var ls := [a, b, c];
    IndexThree(a, b, c);
    assert "++  "[..3] == "++ ";
    assert R.Trails("++  ", "++ ");
    assert Extends(ls, [0, 1], [1, 2], 0);
    assert !Makes(ls, [0, 1], [1, 2], 0);
    assert !Makes(ls, [0, 1], [1, 2], 1);
  }

  /** That can happen: an added line "++" gets back the final blank of the
      removed line "++ ". */
  lemma BlankMakesHeader(a: T.Line, b: T.Line, p: T.Patch)
    requires a == T.Line(T.Src, "++ ") && b == T.Line(T.Dst, "++")
    requires p.chunks == [T.Chunk(1, 1, [a, b])]
    ensures RT.Plain([p]) && !RT.Plain(First(R.Rewrite([p])))
  {
    assert a.text[0] == '+' && "-- "[0] == '-' && |b.text| == 2;
    assert !RT.LooksLikeHeader(a) && !RT.LooksLikeHeader(b);
    assert RT.PlainChunk(p.chunks[0]);
    OnePair(a, b);
    var c := R.RewriteChunks(p.chunks).0[0];
    assert c.lines == [a, b.(text := a.text)];
    assert RT.LooksLikeHeader(c.lines[1]);
    assert !RT.PlainChunk(c);
    var q := R.Rewrite([p])[0];
    assert q.chunks[0] == c;
    assert !RT.PlainPatch(q);
  }
}
