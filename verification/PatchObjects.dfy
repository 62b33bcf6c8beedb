/** The objects of check-style.py, filled in place by setters and appends, and
    the loop of parse_patchset over them. Every object shows a value of PatchText:
    its methods are proved against the functions on these values, so what is proved
    about the functions holds of the objects. */
module PatchObjects {
  import opened Common
  import opened PatchText
  import opened PatchLines
  import V = PatchText
  import R = PatchRoundTrip

  class PatchChunkLine {
    var kind: Option<Kind>
    var text: string

    constructor ()
      ensures kind == None && text == ""
    {
      kind, text := None, "";
    }

    ghost predicate Shows(line: Line)
      reads this
    {
      kind == Some(line.kind) && text == line.text
    }

    method SetSrc(line: string)
      modifies this
      ensures Shows(Line(SRC, line))
    {
      kind, text := Some(SRC), line;
    }

    method SetDst(line: string)
      modifies this
      ensures Shows(Line(DST, line))
    {
      kind, text := Some(DST), line;
    }

    method SetBoth(line: string)
      modifies this
      ensures Shows(Line(BOTH, line))
    {
      kind, text := Some(BOTH), line;
    }

    /** write; a line whose kind was never set makes the original raise. */
    method Write() returns (written: string)
      requires kind.Some?
      ensures forall line :: Shows(line) ==> written == WriteLine(line)
      ensures written == (match kind.value case SRC => "-" case DST => "+" case BOTH => " ") + text + "\n"
    {
      match kind.value {
        case SRC => written := "-" + text + "\n";
        case DST => written := "+" + text + "\n";
        case BOTH => written := " " + text + "\n";
      }
    }
  }

  class PatchChunk {
    var lines: seq<PatchChunkLine>
    var srcPos: int
    var dstPos: int

    constructor (srcPos: int, dstPos: int)
      ensures lines == [] && this.srcPos == srcPos && this.dstPos == dstPos
    {
      lines := [];
      this.srcPos, this.dstPos := srcPos, dstPos;
    }

    ghost predicate Shows(c: Chunk)
      reads this, lines
    {
      && srcPos == c.srcPos && dstPos == c.dstPos && |lines| == |c.lines|
      && forall i :: 0 <= i < |lines| ==> lines[i].Shows(c.lines[i])
    }

    method AddLine(line: PatchChunkLine)
      modifies this
      ensures lines == old(lines) + [line] && srcPos == old(srcPos) && dstPos == old(dstPos)
    {
      lines := lines + [line];
    }

    method CountLines(ghost c: Chunk) returns (src: nat, dst: nat)
      requires Shows(c)
      ensures src == SrcLen(c.lines) && dst == DstLen(c.lines)
    {
      src, dst := 0, 0;
      for i := 0 to |lines|
        invariant src == SrcLen(c.lines[..i]) && dst == DstLen(c.lines[..i])
      {
        assert c.lines[..i + 1][..i] == c.lines[..i];
        assert lines[i].Shows(c.lines[i]);
        if lines[i].kind != Some(DST) {
          src := src + 1;
        }
        if lines[i].kind != Some(SRC) {
          dst := dst + 1;
        }
      }
      assert c.lines[..|lines|] == c.lines;
    }

    /** write: the header with recomputed counts, then every line. */
    method Write(ghost c: Chunk) returns (written: seq<string>)
      requires Shows(c)
      ensures written == WriteChunk(c) && CountsRight(written, srcPos, dstPos)
    {
      var src, dst := CountLines(c);
      written := [HeaderText(Format(srcPos), Decimal(src), Format(dstPos), Decimal(dst))];
      for i := 0 to |lines|
        invariant written == [Header(c)] + WriteLines(c.lines[..i])
      {
        assert c.lines[..i + 1][..i] == c.lines[..i];
        assert lines[i].Shows(c.lines[i]);
        var line := lines[i].Write();
        written := written + [line];
      }
      assert c.lines[..|lines|] == c.lines;
      ChunkCountsRight(c);
    }
  }

  class Patch {
    var src: string
    var dst: string
    var chunks: seq<PatchChunk>

    constructor ()
      ensures src == "" && dst == "" && chunks == []
    {
      src, dst, chunks := "", "", [];
    }

    ghost predicate Shows(p: V.Patch)
      reads *
    {
      && src == p.src && dst == p.dst && |chunks| == |p.chunks|
      && forall i :: 0 <= i < |chunks| ==> chunks[i].Shows(p.chunks[i])
    }

    method AddChunk(chunk: PatchChunk)
      modifies this
      ensures chunks == old(chunks) + [chunk] && src == old(src) && dst == old(dst)
    {
      chunks := chunks + [chunk];
    }

    method SetSrc(src: string)
      modifies this
      ensures this.src == src && dst == old(dst) && chunks == old(chunks)
    {
      this.src := src;
    }

    method SetDst(dst: string)
      modifies this
      ensures this.dst == dst && src == old(src) && chunks == old(chunks)
    {
      this.dst := dst;
    }

    method Write(ghost p: V.Patch) returns (written: seq<string>)
      requires Shows(p)
      ensures written == WritePatch(p)
      ensures written[..2] == ["--- " + src + "\n", "+++ " + dst + "\n"]
    {
      var body := [];
      for i := 0 to |chunks|
        invariant body == WriteChunks(p.chunks[..i])
      {
        assert p.chunks[..i + 1][..i] == p.chunks[..i];
        assert chunks[i].Shows(p.chunks[i]);
        var chunk := chunks[i].Write(p.chunks[i]);
        body := body + chunk;
      }
      assert p.chunks[..|chunks|] == p.chunks;
      written := ["--- " + src + "\n", "+++ " + dst + "\n"] + body;
    }
  }

  ghost predicate AllShow(patchset: seq<Patch>, ps: seq<V.Patch>)
    reads *
  {
    |patchset| == |ps| && forall i :: 0 <= i < |patchset| ==> patchset[i].Shows(ps[i])
  }

  ghost function ChunkLists(patchset: seq<Patch>): seq<seq<PatchChunk>>
    reads patchset
  {
    seq(|patchset|, i requires 0 <= i < |patchset| reads patchset => patchset[i].chunks)
  }

  /** No chunk is listed twice. */
  ghost predicate Unshared(lists: seq<seq<PatchChunk>>) {
    forall i, a, j, b ::
      (0 <= i < |lists| && 0 <= j < |lists| && 0 <= a < |lists[i]| && 0 <= b < |lists[j]|
       && lists[i][a] == lists[j][b]) ==> i == j && a == b
  }

  lemma UnsharedMore(lists: seq<seq<PatchChunk>>, n: nat, chunk: PatchChunk)
    requires Unshared(lists) && n < |lists|
    requires forall i, a :: 0 <= i < |lists| && 0 <= a < |lists[i]| ==> lists[i][a] != chunk
    ensures Unshared(lists[n := lists[n] + [chunk]])
  {}

  lemma UnsharedNew(lists: seq<seq<PatchChunk>>)
    requires Unshared(lists)
    ensures Unshared(lists + [[]])
  {}

  /** The patch objects show the patches of r; no chunk is shared; chunk is the
      one that was created last. */
  ghost predicate Shown(patchset: seq<Patch>, chunk: PatchChunk?, r: Reading)
    reads *
  {
    && GoodReading(r) && |patchset| == |r.patches|
    && (forall i :: 0 <= i < |patchset| ==> patchset[i].Shows(r.patches[i]))
    && (forall i, j :: 0 <= i < j < |patchset| ==> patchset[i] != patchset[j])
    && Unshared(ChunkLists(patchset))
    && (r.chunkAt.None? <==> chunk == null)
    && (r.chunkAt.Some? ==> var (i, a) := r.chunkAt.value; patchset[i].chunks[a] == chunk)
  }

  method BeginPatch(patchset: seq<Patch>, chunk: PatchChunk?, name: string, ghost r: Reading, ghost next: Reading)
    returns (patch: Patch)
    requires Shown(patchset, chunk, r) && next == Reading(r.patches + [V.Patch(name, "", [])], r.chunkAt)
    ensures fresh(patch) && patch.chunks == []
    ensures Shown(patchset + [patch], chunk, next)
  {
    ghost var lists := ChunkLists(patchset);
    patch := new Patch();
    patch.SetSrc(name);
    UnsharedNew(lists);
    assert ChunkLists(patchset + [patch]) == lists + [[]];
    assert forall i :: 0 <= i < |patchset| ==> patchset[i] != patch && patchset[i].Shows(r.patches[i]);
  }

  method NameDst(patchset: seq<Patch>, chunk: PatchChunk?, name: string, ghost r: Reading, ghost next: Reading)
    requires Shown(patchset, chunk, r) && patchset != []
    requires var n := |patchset| - 1; next == r.(patches := r.patches[n := r.patches[n].(dst := name)])
    modifies patchset[|patchset| - 1]
    ensures Shown(patchset, chunk, next)
  {
    ghost var n, lists := |patchset| - 1, ChunkLists(patchset);
    assert patchset[n].Shows(r.patches[n]);
    patchset[|patchset| - 1].SetDst(name);
    assert ChunkLists(patchset) == lists;
    assert forall i :: 0 <= i < n ==> patchset[i].Shows(r.patches[i]);
  }

  method BeginChunk(patchset: seq<Patch>, ghost before: PatchChunk?, a: nat, b: nat,
                    ghost r: Reading, ghost next: Reading)
    returns (chunk: PatchChunk)
    requires Shown(patchset, before, r) && patchset != []
    requires var n := |patchset| - 1;
      var p := r.patches[n];
      next == Reading(r.patches[n := p.(chunks := p.chunks + [Chunk([], a, b)])], Some((n, |p.chunks|)))
    modifies patchset[|patchset| - 1]
    ensures fresh(chunk) && Shown(patchset, chunk, next)
  {
    ghost var n, lists := |patchset| - 1, ChunkLists(patchset);
    assert patchset[n].Shows(r.patches[n]);
    chunk := new PatchChunk(a, b);
    UnsharedMore(lists, n, chunk);
    patchset[|patchset| - 1].AddChunk(chunk);
    assert ChunkLists(patchset) == lists[n := lists[n] + [chunk]];
    assert forall i :: 0 <= i < n ==> patchset[i].Shows(r.patches[i]);
    assert patchset[n].Shows(next.patches[n]);
  }

  method NewLine(line: Line) returns (l: PatchChunkLine)
    ensures fresh(l) && l.Shows(line)
  {
    l := new PatchChunkLine();
    match line.kind {
      case SRC => l.SetSrc(line.text);
      case DST => l.SetDst(line.text);
      case BOTH => l.SetBoth(line.text);
    }
  }

  method AddBody(ghost patchset: seq<Patch>, chunk: PatchChunk, line: Line, ghost r: Reading, ghost next: Reading)
    requires Shown(patchset, chunk, r) && r.chunkAt.Some? && next == AddLine(r, line)
    modifies chunk
    ensures Shown(patchset, chunk, next)
  {
    ghost var (i, a) := r.chunkAt.value;
    ghost var lists := ChunkLists(patchset);
    assert Unshared(lists) && lists[i][a] == chunk;
    assert patchset[i].Shows(r.patches[i]) && patchset[i].chunks[a].Shows(r.patches[i].chunks[a]);
    var l := NewLine(line);
    chunk.AddLine(l);
    assert ChunkLists(patchset) == lists;
    assert patchset[i].chunks[a].Shows(next.patches[i].chunks[a]);
    forall j | 0 <= j < |patchset| ensures patchset[j].Shows(next.patches[j]) {
      assert old(patchset[j].Shows(r.patches[j]));
      forall b | 0 <= b < |patchset[j].chunks|
        ensures patchset[j].chunks[b].Shows(next.patches[j].chunks[b])
      {
        assert old(patchset[j].chunks[b].Shows(r.patches[j].chunks[b]));
        if (j, b) != (i, a) { assert lists[j][b] != chunk; }
      }
    }
  }

  /** The loop body for one line. */
  method ReadLine(patchset0: seq<Patch>, chunk0: PatchChunk?, line: string, ghost r: Reading)
    returns (ok: bool, patchset: seq<Patch>, chunk: PatchChunk?)
    requires Shown(patchset0, chunk0, r)
    modifies patchset0, chunk0
    ensures ok <==> Step(r, line).Some?
    ensures ok ==> Shown(patchset, chunk, Step(r, line).value)
    ensures forall p :: p in patchset ==> p in patchset0 || fresh(p)
    ensures chunk == chunk0 || (chunk != null && fresh(chunk))
  {
    ok, patchset, chunk := true, patchset0, chunk0;
    ghost var next := Step(r, line);
    match Classify(line) {
      case SrcFile(name) =>
        var patch := BeginPatch(patchset, chunk, name, r, next.value);
        patchset := patchset + [patch];
      case DstFile(name) =>
        ok := patchset != [];
        if ok { NameDst(patchset, chunk, name, r, next.value); }
      case ChunkStart(a, b) =>
        ok := patchset != [];
        if ok { chunk := BeginChunk(patchset, chunk, a, b, r, next.value); }
      case Body(l) =>
        ok := chunk != null;
        if ok { AddBody(patchset, chunk, l, r, next.value); }
      case Bad =>
        ok := false;
    }
  }

  /** parse_patchset: ok is false where the original raises. The current patch is
      the last of the patch set, and there is none before the first. */
  method ParsePatchset(lines: seq<string>) returns (ok: bool, patchset: seq<Patch>)
    ensures ok <==> Parsed(lines).Some?
    ensures ok ==> |patchset| == |Parsed(lines).value|
    ensures ok ==> forall i :: 0 <= i < |patchset| ==> patchset[i].Shows(Parsed(lines).value[i])
  {
    ghost var r := Nothing;
    patchset := [];
    var currentChunk: PatchChunk? := null;
    for k := 0 to |lines|
      invariant Shown(patchset, currentChunk, r) && ReadAll(Nothing, lines) == ReadAll(r, lines[k..])
      invariant forall p :: p in patchset ==> fresh(p)
      invariant currentChunk == null || fresh(currentChunk)
    {
      assert lines[k..][0] == lines[k] && lines[k..][1..] == lines[k + 1..];
      assert forall i :: 0 <= i < |patchset| ==> patchset[i] in patchset;
      ok, patchset, currentChunk := ReadLine(patchset, currentChunk, lines[k], r);
      if !ok {
        return false, patchset;
      }
      r := Step(r, lines[k]).value;
    }
    assert lines[|lines|..] == [];
    ok := true;
  }

  // ---------- written, and read into new objects ----------

  /** Objects show one value only. */
  lemma ChunkShowsOne(chunk: PatchChunk, c: Chunk, d: Chunk)
    requires chunk.Shows(c) && chunk.Shows(d)
    ensures c == d
  {
    forall i | 0 <= i < |c.lines| ensures c.lines[i] == d.lines[i] {
      assert chunk.lines[i].Shows(c.lines[i]) && chunk.lines[i].Shows(d.lines[i]);
    }
    assert c.lines == d.lines;
  }

  lemma PatchShowsOne(patch: Patch, p: V.Patch, q: V.Patch)
    requires patch.Shows(p) && patch.Shows(q)
    ensures p == q
  {
    forall i | 0 <= i < |p.chunks| ensures p.chunks[i] == q.chunks[i] {
      ChunkShowsOne(patch.chunks[i], p.chunks[i], q.chunks[i]);
    }
    assert p.chunks == q.chunks;
  }

  lemma AllShowOne(patchset: seq<Patch>, ps: seq<V.Patch>, qs: seq<V.Patch>)
    requires AllShow(patchset, ps) && AllShow(patchset, qs)
    ensures ps == qs
  {
    forall i | 0 <= i < |ps| ensures ps[i] == qs[i] { PatchShowsOne(patchset[i], ps[i], qs[i]); }
  }

  method WritePatchset(patchset: seq<Patch>, ghost ps: seq<V.Patch>) returns (written: seq<string>)
    requires AllShow(patchset, ps)
    ensures written == WriteAll(ps)
  {
    written := [];
    for i := 0 to |patchset|
      invariant written == WriteAll(ps[..i])
    {
      assert ps[..i + 1][..i] == ps[..i];
      var patch := patchset[i].Write(ps[i]);
      written := written + patch;
    }
    assert ps[..|patchset|] == ps;
  }

  /** Writing patch objects and reading the text gives objects that show the same
      patches exactly when no line would be mistaken for the name of a file. */
  method WriteAndParse(patchset: seq<Patch>, ghost ps: seq<V.Patch>) returns (ok: bool, again: seq<Patch>)
    requires AllShow(patchset, ps) && Plain(ps)
    ensures ok && AllShow(again, ps) <==> Clean(ps)
  {
    var written := WritePatchset(patchset, ps);
    ok, again := ParsePatchset(written);
    R.RoundTripIff(ps);
    if ok && AllShow(again, ps) { AllShowOne(again, ps, Parsed(written).value); }
  }
}
