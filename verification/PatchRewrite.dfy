/** remove_trailing_whitespace_changes of utils/check-style.py on values: the
    i-th source line of a chunk is compared with its i-th destination line,
    and a blank that the destination lost is put back. */
module PatchRewrite {
  import opened Basics
  import opened Graphs
  import opened PatchText

  // ---------- one chunk ----------

  ghost predicate SrcAt(ls: seq<Line>, p: seq<nat>) {
    Distinct(p) && forall k :: 0 <= k < |p| ==> p[k] < |ls| && IsSrc(ls[p[k]])
  }

  ghost predicate DstAt(ls: seq<Line>, p: seq<nat>) {
    Distinct(p) && forall k :: 0 <= k < |p| ==> p[k] < |ls| && IsDst(ls[p[k]])
  }

  /** The positions of the source lines, and of the destination lines. */
  function SrcIndex(ls: seq<Line>): (p: seq<nat>)
    ensures SrcAt(ls, p) && |p| == SrcLen(ls)
  {
    if ls == [] then [] else
    var n := |ls| - 1;
    SrcIndex(ls[..n]) + if IsSrc(ls[n]) then [n] else []
  }

  function DstIndex(ls: seq<Line>): (p: seq<nat>)
    ensures DstAt(ls, p) && |p| == DstLen(ls)
  {
    if ls == [] then [] else
    var n := |ls| - 1;
    DstIndex(ls[..n]) + if IsDst(ls[n]) then [n] else []
  }

  predicate BlankChar(c: char) {
    c == ' ' || c == '\t'
  }

  /** Matching s against ^(.*)([ \t]+)$ with d for the first group: the first
      group is greedy and leaves one blank to the second one. */
  predicate Trails(s: string, d: string) {
    s != [] && BlankChar(s[|s| - 1]) && s[..|s| - 1] == d
  }

  /** s is d with one space or one tab more. */
  lemma TrailsIs(s: string, d: string)
    ensures Trails(s, d) <==> s == d + " " || s == d + "\t"
  {
    if Trails(s, d) {
      assert s == d + [s[|s| - 1]];
    }
    assert (d + " ")[..|d|] == d && (d + "\t")[..|d|] == d;
  }

  /** Comparing the line at a with the line at b; they can be the same line. */
  function Compare(ls: seq<Line>, a: nat, b: nat): seq<Line>
    requires a < |ls| && b < |ls|
  {
    var s, d := ls[a].text, ls[b].text;
    if Trails(s, d) then ls[b := ls[b].(text := d + [s[|s| - 1]])] else ls
  }

  /** The lines after the first n comparisons. */
  function Compared(ls: seq<Line>, src: seq<nat>, dst: seq<nat>, n: nat): (r: seq<Line>)
    requires SrcAt(ls, src) && DstAt(ls, dst) && n <= |src| && n <= |dst|
    ensures |r| == |ls|
  {
    if n == 0 then ls else Compare(Compared(ls, src, dst, n - 1), src[n - 1], dst[n - 1])
  }

  /** There are fewer destination lines than source lines: the loop runs into
      an IndexError, and the function returns at once. */
  predicate Short(ls: seq<Line>) {
    DstLen(ls) < SrcLen(ls)
  }

  function Pairs(ls: seq<Line>): nat {
    Min(SrcLen(ls), DstLen(ls))
  }

  ghost function RewriteLines(ls: seq<Line>): seq<Line> {
    Compared(ls, SrcIndex(ls), DstIndex(ls), Pairs(ls))
  }

  /** b is a, or a with one blank more at its end. */
  ghost predicate SameOrOneBlank(a: Line, b: Line) {
    a.kind == b.kind && (b.text == a.text || exists c :: BlankChar(c) && b.text == a.text + [c])
  }

  /** A destination line that has not had its turn is unchanged. */
  lemma {:induction false} ComparedOthers(ls: seq<Line>, src: seq<nat>, dst: seq<nat>, n: nat, i: nat)
    requires SrcAt(ls, src) && DstAt(ls, dst) && n <= |src| && n <= |dst|
    requires i < |ls| && forall k :: 0 <= k < n ==> dst[k] != i
    ensures Compared(ls, src, dst, n)[i] == ls[i]
  {
    if n > 0 {
      ComparedOthers(ls, src, dst, n - 1, i);
    }
  }

  /** Each comparison changes its own destination line only, by one blank. */
  lemma {:induction false} ComparedFrame(ls: seq<Line>, src: seq<nat>, dst: seq<nat>, n: nat)
    requires SrcAt(ls, src) && DstAt(ls, dst) && n <= |src| && n <= |dst|
    ensures forall i :: 0 <= i < |ls| ==> SameOrOneBlank(ls[i], Compared(ls, src, dst, n)[i])
  {
    if n > 0 {
      ComparedFrame(ls, src, dst, n - 1);
      ComparedOthers(ls, src, dst, n - 1, dst[n - 1]);
      var s := Compared(ls, src, dst, n - 1)[src[n - 1]].text;
      assert s != [] && BlankChar(s[|s| - 1]) ==> SameOrOneBlank(ls[dst[n - 1]],
               ls[dst[n - 1]].(text := ls[dst[n - 1]].text + [s[|s| - 1]]));
    }
  }

  lemma {:induction false} ComparedLater(ls: seq<Line>, src: seq<nat>, dst: seq<nat>, k: nat, n: nat)
    requires SrcAt(ls, src) && DstAt(ls, dst) && k < n <= |src| && n <= |dst|
    ensures Compared(ls, src, dst, n)[dst[k]] == Compared(ls, src, dst, k + 1)[dst[k]]
  {
    if n > k + 1 {
      ComparedLater(ls, src, dst, k, n - 1);
    }
  }

  /** The k-th comparison would extend a context line. */
  ghost predicate HitsContext(ls: seq<Line>, src: seq<nat>, dst: seq<nat>, k: nat)
    requires SrcAt(ls, src) && DstAt(ls, dst) && k < |src| && k < |dst|
  {
    ls[dst[k]].kind.Both? && Trails(ls[src[k]].text, ls[dst[k]].text)
  }

  ghost predicate SameSource(a: seq<Line>, b: seq<Line>) {
    |a| == |b| && forall i :: 0 <= i < |a| && IsSrc(a[i]) ==> b[i] == a[i]
  }

  /** As long as no comparison hits a context line, the source side stays. */
  lemma {:induction false} SourceStays(ls: seq<Line>, src: seq<nat>, dst: seq<nat>, n: nat)
    requires SrcAt(ls, src) && DstAt(ls, dst) && n <= |src| && n <= |dst|
    requires forall k :: 0 <= k < n ==> !HitsContext(ls, src, dst, k)
    ensures SameSource(ls, Compared(ls, src, dst, n))
  {
    if n > 0 {
      SourceStays(ls, src, dst, n - 1);
      ComparedOthers(ls, src, dst, n - 1, dst[n - 1]);
      assert !HitsContext(ls, src, dst, n - 1);
      assert Compared(ls, src, dst, n - 1)[src[n - 1]] == ls[src[n - 1]];
    }
  }

  /** The first comparison that hits a context line changes it for good. */
  lemma {:induction false} SourceChanges(ls: seq<Line>, src: seq<nat>, dst: seq<nat>, k: nat, n: nat)
    requires SrcAt(ls, src) && DstAt(ls, dst) && k < n <= |src| && n <= |dst|
    requires HitsContext(ls, src, dst, k)
    ensures !SameSource(ls, Compared(ls, src, dst, n))
    decreases k
  {
    if j: nat :| j < k && HitsContext(ls, src, dst, j) {
      SourceChanges(ls, src, dst, j, n);
    } else {
      SourceStays(ls, src, dst, k);
      ComparedOthers(ls, src, dst, k, dst[k]);
      var before := Compared(ls, src, dst, k);
      assert before[src[k]] == ls[src[k]] && before[dst[k]] == ls[dst[k]];
      ComparedLater(ls, src, dst, k, n);
      assert |Compared(ls, src, dst, n)[dst[k]].text| == |ls[dst[k]].text| + 1;
    }
  }

  /** No i-th destination line is a context line that lacks just a final blank
      of the i-th source line. */
  ghost predicate SafeLines(ls: seq<Line>) {
    forall k: nat :: k < Pairs(ls) ==> !HitsContext(ls, SrcIndex(ls), DstIndex(ls), k)
  }

  /** The rewriter keeps every line but for at most one blank at its end; and it
      keeps the source side of a chunk exactly when the chunk is safe. */
  lemma RewriteLinesFrame(ls: seq<Line>)
    ensures |RewriteLines(ls)| == |ls|
    ensures forall i :: 0 <= i < |ls| ==> SameOrOneBlank(ls[i], RewriteLines(ls)[i])
    ensures forall i :: 0 <= i < |ls| && ls[i].kind.Src? ==> RewriteLines(ls)[i] == ls[i]
    ensures SameSource(ls, RewriteLines(ls)) <==> SafeLines(ls)
  {
    var src, dst, n := SrcIndex(ls), DstIndex(ls), Pairs(ls);
    ComparedFrame(ls, src, dst, n);
    forall i: nat | i < |ls| && ls[i].kind.Src? ensures Compared(ls, src, dst, n)[i] == ls[i] {
      ComparedOthers(ls, src, dst, n, i);
    }
    if SafeLines(ls) {
      SourceStays(ls, src, dst, n);
    } else {
      var k: nat :| k < n && HitsContext(ls, src, dst, k);
      SourceChanges(ls, src, dst, k, n);
    }
  }

  /** A chunk whose source side does change: a removed line with a final blank
      stands before the same line, without it, as context. */
  lemma ContextLineIsExtended(removed: Line, context: Line)
    requires removed == Line(Src, "a ") && context == Line(Both, "a")
    ensures !SameSource([removed, context], RewriteLines([removed, context]))
  {
    var ls := [removed, context];
    IndexTwo(removed, context);
    assert HitsContext(ls, SrcIndex(ls), DstIndex(ls), 0);
    RewriteLinesFrame(ls);
  }

  lemma IndexTwo(a: Line, b: Line)
    requires a.kind.Src? && b.kind.Both?
    ensures SrcIndex([a, b]) == [0, 1] && DstIndex([a, b]) == [1]
  {
    var ls := [a, b];
    assert ls[..1] == [a];
    assert [a][..0] == [];
    assert SrcIndex([a]) == [0] && DstIndex([a]) == [];
  }

  // ---------- the whole patch list ----------

  /** The chunks of a patch, rewritten up to the first short one; and whether
      there was one. */
  ghost function RewriteChunks(cs: seq<Chunk>): (seq<Chunk>, bool) {
    if cs == [] then ([], false) else
    var c := cs[0].(lines := RewriteLines(cs[0].lines));
    if Short(cs[0].lines) then ([c] + cs[1..], true) else
    var (rest, stopped) := RewriteChunks(cs[1..]);
    ([c] + rest, stopped)
  }

  /** The early return leaves all later patches alone, too. */
  ghost function Rewrite(ps: seq<Patch>): seq<Patch> {
    if ps == [] then [] else
    var (cs, stopped) := RewriteChunks(ps[0].chunks);
    [ps[0].(chunks := cs)] + if stopped then ps[1..] else Rewrite(ps[1..])
  }

  ghost predicate SafeChunks(cs: seq<Chunk>) {
    cs == [] || (SafeLines(cs[0].lines) && (Short(cs[0].lines) || SafeChunks(cs[1..])))
  }

  ghost predicate Stopped(cs: seq<Chunk>) {
    exists i :: 0 <= i < |cs| && Short(cs[i].lines)
  }

  /** Every chunk up to and including the first short one is safe. */
  ghost predicate Safe(ps: seq<Patch>) {
    ps == [] || (SafeChunks(ps[0].chunks) && (Stopped(ps[0].chunks) || Safe(ps[1..])))
  }

  ghost predicate ChunkFrame(a: Chunk, b: Chunk) {
    && a.srcPos == b.srcPos && a.dstPos == b.dstPos && |a.lines| == |b.lines|
    && forall i :: 0 <= i < |a.lines| ==> SameOrOneBlank(a.lines[i], b.lines[i])
  }

  ghost predicate ChunksFrame(a: seq<Chunk>, b: seq<Chunk>) {
    |a| == |b| && (a == [] || (ChunkFrame(a[0], b[0]) && ChunksFrame(a[1..], b[1..])))
  }

  ghost predicate Frame(a: seq<Patch>, b: seq<Patch>) {
    |a| == |b| && (a == [] ||
      (a[0].src == b[0].src && a[0].dst == b[0].dst && ChunksFrame(a[0].chunks, b[0].chunks) && Frame(a[1..], b[1..])))
  }

  ghost predicate ChunksSameSource(a: seq<Chunk>, b: seq<Chunk>) {
    |a| == |b| && (a == [] || (SameSource(a[0].lines, b[0].lines) && ChunksSameSource(a[1..], b[1..])))
  }

  ghost predicate PatchesSameSource(a: seq<Patch>, b: seq<Patch>) {
    |a| == |b| && (a == [] || (ChunksSameSource(a[0].chunks, b[0].chunks) && PatchesSameSource(a[1..], b[1..])))
  }

  lemma {:induction false} ChunksUnchanged(cs: seq<Chunk>)
    ensures ChunksFrame(cs, cs) && ChunksSameSource(cs, cs)
  {
    if cs != [] {
      ChunksUnchanged(cs[1..]);
    }
  }

  lemma {:induction false} PatchesUnchanged(ps: seq<Patch>)
    ensures Frame(ps, ps) && PatchesSameSource(ps, ps)
  {
    if ps != [] {
      ChunksUnchanged(ps[0].chunks);
      PatchesUnchanged(ps[1..]);
    }
  }

  lemma StoppedStep(cs: seq<Chunk>)
    requires cs != []
    ensures Stopped(cs) <==> Short(cs[0].lines) || Stopped(cs[1..])
  {
    assert forall i :: 0 <= i < |cs| - 1 ==> cs[1..][i] == cs[i + 1];
    assert forall i :: 1 <= i < |cs| ==> cs[i] == cs[1..][i - 1];
  }

  lemma {:induction false} RewriteChunksFrame(cs: seq<Chunk>)
    ensures ChunksFrame(cs, RewriteChunks(cs).0)
    ensures RewriteChunks(cs).1 <==> Stopped(cs)
    ensures ChunksSameSource(cs, RewriteChunks(cs).0) <==> SafeChunks(cs)
  {
    if cs != [] {
      RewriteLinesFrame(cs[0].lines);
      RewriteChunksFrame(cs[1..]);
      ChunksUnchanged(cs[1..]);
      StoppedStep(cs);
      var rest := if Short(cs[0].lines) then cs[1..] else RewriteChunks(cs[1..]).0;
      var r := RewriteChunks(cs).0;
      assert r[1..] == rest;
    }
  }

  /** Over the whole patch list, early return included: the number, order and
      kind of everything is kept, every line is kept or extended by one blank,
      and the source sides of all chunks are kept exactly when every chunk up
      to the first short one is safe. */
  lemma {:induction false} RewriteFrame(ps: seq<Patch>)
    ensures Frame(ps, Rewrite(ps))
    ensures PatchesSameSource(ps, Rewrite(ps)) <==> Safe(ps)
  {
    if ps != [] {
      RewriteChunksFrame(ps[0].chunks);
      RewriteFrame(ps[1..]);
      PatchesUnchanged(ps[1..]);
      var rest := if Stopped(ps[0].chunks) then ps[1..] else Rewrite(ps[1..]);
      assert Rewrite(ps)[1..] == rest;
    }
  }
}
