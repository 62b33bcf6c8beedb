/** Writing and reading patch sets. Reading in pieces shows that clean patches survive;
    counting body lines shows that others do not; and whatever was read is clean. Both
    hold for one string per line and for a file that is split into lines. */
module PatchRoundTrip {
  import opened Common
  import opened PatchText

  // ---------- reading in pieces ----------

  lemma {:induction false} ReadAppend(r: Reading, a: seq<string>, b: seq<string>)
    requires GoodReading(r)
    ensures ReadAll(r, a + b) == match ReadAll(r, a) case None => None case Some(t) => ReadAll(t, b)
    decreases |a|
  {
    if a == [] {
      assert a + b == b;
    } else {
      assert (a + b)[1..] == a[1..] + b;
      if Step(r, a[0]).Some? { ReadAppend(Step(r, a[0]).value, a[1..], b); }
    }
  }

  lemma ReadThen(r: Reading, a: seq<string>, t: Reading, b: seq<string>)
    requires GoodReading(r) && ReadAll(r, a) == Some(t)
    ensures GoodReading(t) && ReadAll(r, a + b) == ReadAll(t, b)
  {
    ReadAppend(r, a, b);
  }

  lemma ReadOne(r: Reading, line: string)
    requires GoodReading(r)
    ensures ReadAll(r, [line]) == Step(r, line)
  {
    assert [line][1..] == [];
  }

  /** The last patch is Patch(src, dst, cs + [c]) and lines go to c. */
  ghost function InChunk(ps: seq<Patch>, src: string, dst: string, cs: seq<Chunk>, c: Chunk): Reading {
    Reading(ps + [Patch(src, dst, cs + [c])], Some((|ps|, |cs|)))
  }

  lemma ReadBody(ps: seq<Patch>, src: string, dst: string, cs: seq<Chunk>, c: Chunk, line: Line)
    requires NoNewline(line.text) && CleanLine(line)
    ensures Step(InChunk(ps, src, dst, cs, c), WriteLine(line))
      == Some(InChunk(ps, src, dst, cs, c.(lines := c.lines + [line])))
  {
    ClassifyBody(line);
    var r := InChunk(ps, src, dst, cs, c);
    var p := Patch(src, dst, cs + [c]);
    var c' := c.(lines := c.lines + [line]);
    assert r.patches[|ps|] == p && p.chunks[|cs|] == c;
    assert p.chunks[|cs| := c'] == cs + [c'];
    assert r.patches[|ps| := p.(chunks := cs + [c'])] == ps + [Patch(src, dst, cs + [c'])];
  }

  lemma {:induction false} ReadLines(ps: seq<Patch>, src: string, dst: string, cs: seq<Chunk>, a: int, b: int,
                                     lines: seq<Line>)
    requires forall i :: 0 <= i < |lines| ==> NoNewline(lines[i].text) && CleanLine(lines[i])
    ensures ReadAll(InChunk(ps, src, dst, cs, Chunk([], a, b)), WriteLines(lines))
      == Some(InChunk(ps, src, dst, cs, Chunk(lines, a, b)))
    decreases |lines|
  {
    if lines == [] {
    } else {
      var front, last := lines[..|lines| - 1], lines[|lines| - 1];
      ReadLines(ps, src, dst, cs, a, b, front);
      var r := InChunk(ps, src, dst, cs, Chunk(front, a, b));
      ReadThen(InChunk(ps, src, dst, cs, Chunk([], a, b)), WriteLines(front), r, [WriteLine(last)]);
      ReadBody(ps, src, dst, cs, Chunk(front, a, b), last);
      ReadOne(r, WriteLine(last));
      FrontLast(lines);
    }
  }

  ghost predicate ChunkBefore(ps: seq<Patch>, p: Patch, at: Option<(nat, nat)>) {
    GoodReading(Reading(ps + [p], at))
  }

  lemma ReadChunk(ps: seq<Patch>, p: Patch, at: Option<(nat, nat)>, c: Chunk)
    requires ChunkBefore(ps, p, at) && PlainChunk(c) && CleanChunk(c)
    ensures ReadAll(Reading(ps + [p], at), WriteChunk(c)) == Some(InChunk(ps, p.src, p.dst, p.chunks, c))
  {
    var r := Reading(ps + [p], at);
    var t := InChunk(ps, p.src, p.dst, p.chunks, Chunk([], c.srcPos, c.dstPos));
    ClassifyHeader(c);
    assert (ps + [p])[|ps| := p.(chunks := p.chunks + [Chunk([], c.srcPos, c.dstPos)])] == t.patches;
    ReadOne(r, Header(c));
    ReadThen(r, [Header(c)], t, WriteLines(c.lines));
    ReadLines(ps, p.src, p.dst, p.chunks, c.srcPos, c.dstPos, c.lines);
  }

  ghost function LastChunk(ps: seq<Patch>, chunks: seq<Chunk>, at: Option<(nat, nat)>): Option<(nat, nat)> {
    if chunks == [] then at else Some((|ps|, |chunks| - 1))
  }

  lemma {:induction false} ReadChunks(s: Reading, ps: seq<Patch>, p: Patch, chunks: seq<Chunk>)
    requires GoodReading(s) && s.patches == ps + [p] && p.chunks == []
    requires forall i :: 0 <= i < |chunks| ==> PlainChunk(chunks[i]) && CleanChunk(chunks[i])
    ensures ReadAll(s, WriteChunks(chunks))
      == Some(Reading(ps + [p.(chunks := chunks)], LastChunk(ps, chunks, s.chunkAt)))
    decreases |chunks|
  {
    if chunks == [] {
    } else {
      ReadChunks(s, ps, p, chunks[..|chunks| - 1]);
      NextChunk(s, ps, p, chunks);
    }
  }

  lemma NextChunk(s: Reading, ps: seq<Patch>, p: Patch, chunks: seq<Chunk>)
    requires GoodReading(s) && chunks != []
    requires var front := chunks[..|chunks| - 1];
      ReadAll(s, WriteChunks(front)) == Some(Reading(ps + [p.(chunks := front)], LastChunk(ps, front, s.chunkAt)))
    requires PlainChunk(chunks[|chunks| - 1]) && CleanChunk(chunks[|chunks| - 1])
    ensures ReadAll(s, WriteChunks(chunks))
      == Some(Reading(ps + [p.(chunks := chunks)], LastChunk(ps, chunks, s.chunkAt)))
  {
    var front, c := chunks[..|chunks| - 1], chunks[|chunks| - 1];
    var q, at := p.(chunks := front), LastChunk(ps, front, s.chunkAt);
    ReadThen(s, WriteChunks(front), Reading(ps + [q], at), WriteChunk(c));
    ReadChunk(ps, q, at, c);
    FrontLast(chunks);
  }

  lemma StepSrc(r: Reading, line: string, src: string)
    requires GoodReading(r) && NoNewline(src) && line == "--- " + src + "\n"
    ensures Step(r, line) == Some(Reading(r.patches + [Patch(src, "", [])], r.chunkAt))
  {
    ClassifySrc(src);
  }

  lemma StepDst(r: Reading, line: string, src: string, dst: string)
    requires GoodReading(r) && NoNewline(dst) && line == "+++ " + dst + "\n"
    ensures GoodReading(Reading(r.patches + [Patch(src, "", [])], r.chunkAt))
    ensures Step(Reading(r.patches + [Patch(src, "", [])], r.chunkAt), line)
      == Some(Reading(r.patches + [Patch(src, dst, [])], r.chunkAt))
  {
    ClassifyDst(dst);
    var patches := r.patches + [Patch(src, "", [])];
    assert patches[|r.patches| := Patch(src, dst, [])] == r.patches + [Patch(src, dst, [])];
  }

  lemma ReadNames(r: Reading, src: string, dst: string)
    requires GoodReading(r) && NoNewline(src) && NoNewline(dst)
    ensures ReadAll(r, ["--- " + src + "\n", "+++ " + dst + "\n"])
      == Some(Reading(r.patches + [Patch(src, dst, [])], r.chunkAt))
  {
    var l1, l2 := "--- " + src + "\n", "+++ " + dst + "\n";
    var t := Reading(r.patches + [Patch(src, "", [])], r.chunkAt);
    StepSrc(r, l1, src);
    StepDst(r, l2, src, dst);
    assert [l1, l2][1..] == [l2];
    ReadOne(t, l2);
  }

  lemma ReadPatch(r: Reading, p: Patch)
    requires GoodReading(r) && PlainPatch(p) && CleanPatch(p)
    ensures ReadAll(r, WritePatch(p)) == Some(Reading(r.patches + [p], LastChunk(r.patches, p.chunks, r.chunkAt)))
  {
    var t := Reading(r.patches + [Patch(p.src, p.dst, [])], r.chunkAt);
    ReadNames(r, p.src, p.dst);
    ReadThen(r, ["--- " + p.src + "\n", "+++ " + p.dst + "\n"], t, WriteChunks(p.chunks));
    ReadChunks(t, r.patches, Patch(p.src, p.dst, []), p.chunks);
  }

  lemma ReadPatchAfter(r: Reading, ps: seq<Patch>) returns (t: Reading)
    requires ps != [] && PlainPatch(ps[|ps| - 1]) && CleanPatch(ps[|ps| - 1])
    requires GoodReading(r) && r.patches == ps[..|ps| - 1] && ReadAll(Nothing, WriteAll(r.patches)) == Some(r)
    ensures GoodReading(t) && ReadAll(Nothing, WriteAll(ps)) == Some(t) && t.patches == ps
  {
    var p := ps[|ps| - 1];
    ReadThen(Nothing, WriteAll(r.patches), r, WritePatch(p));
    ReadPatch(r, p);
    FrontLast(ps);
    t := Reading(r.patches + [p], LastChunk(r.patches, p.chunks, r.chunkAt));
  }

  lemma {:induction false} ReadPatches(ps: seq<Patch>) returns (r: Reading)
    requires Plain(ps) && Clean(ps)
    ensures GoodReading(r) && ReadAll(Nothing, WriteAll(ps)) == Some(r) && r.patches == ps
    decreases |ps|
  {
    if ps == [] {
      r := Nothing;
    } else {
      var before := ReadPatches(ps[..|ps| - 1]);
      r := ReadPatchAfter(before, ps);
    }
  }

  // ---------- counting body lines ----------

  ghost function ChunkLines(chunks: seq<Chunk>): nat {
    if chunks == [] then 0 else ChunkLines(chunks[..|chunks| - 1]) + |chunks[|chunks| - 1].lines|
  }

  ghost function BodyCount(ps: seq<Patch>): nat {
    if ps == [] then 0 else BodyCount(ps[..|ps| - 1]) + ChunkLines(ps[|ps| - 1].chunks)
  }

  ghost function BodiesIn(lines: seq<string>): nat {
    if lines == [] then 0 else BodiesIn(lines[..|lines| - 1]) + (if Classify(lines[|lines| - 1]).Body? then 1 else 0)
  }

  lemma {:induction false} ChunkLinesUpdate(chunks: seq<Chunk>, j: nat, c: Chunk)
    requires j < |chunks|
    ensures ChunkLines(chunks[j := c]) + |chunks[j].lines| == ChunkLines(chunks) + |c.lines|
  {
    var n := |chunks| - 1;
    if j < n {
      assert chunks[j := c][..n] == chunks[..n][j := c];
      ChunkLinesUpdate(chunks[..n], j, c);
    } else {
      assert chunks[j := c][..n] == chunks[..n];
    }
  }

  lemma {:induction false} BodyCountUpdate(ps: seq<Patch>, i: nat, p: Patch)
    requires i < |ps|
    ensures BodyCount(ps[i := p]) + ChunkLines(ps[i].chunks) == BodyCount(ps) + ChunkLines(p.chunks)
  {
    var n := |ps| - 1;
    if i < n {
      assert ps[i := p][..n] == ps[..n][i := p];
      BodyCountUpdate(ps[..n], i, p);
    } else {
      assert ps[i := p][..n] == ps[..n];
    }
  }

  lemma AddLineCounts(r: Reading, line: Line)
    requires GoodReading(r) && r.chunkAt.Some?
    ensures BodyCount(AddLine(r, line).patches) == BodyCount(r.patches) + 1
  {
    var (i, j) := r.chunkAt.value;
    var p := r.patches[i];
    var c := p.chunks[j].(lines := p.chunks[j].lines + [line]);
    ChunkLinesUpdate(p.chunks, j, c);
    BodyCountUpdate(r.patches, i, p.(chunks := p.chunks[j := c]));
  }

  lemma AddChunkCounts(ps: seq<Patch>, c: Chunk)
    requires ps != [] && c.lines == []
    ensures var p := ps[|ps| - 1];
      BodyCount(ps[|ps| - 1 := p.(chunks := p.chunks + [c])]) == BodyCount(ps)
  {
    var p := ps[|ps| - 1];
    assert (p.chunks + [c])[..|p.chunks|] == p.chunks;
    BodyCountUpdate(ps, |ps| - 1, p.(chunks := p.chunks + [c]));
  }

  lemma AddPatchCounts(ps: seq<Patch>, p: Patch)
    ensures BodyCount(ps + [p]) == BodyCount(ps) + ChunkLines(p.chunks)
  {
    assert (ps + [p])[..|ps|] == ps;
  }

  lemma SetDstCounts(ps: seq<Patch>, name: string)
    requires ps != []
    ensures BodyCount(ps[|ps| - 1 := ps[|ps| - 1].(dst := name)]) == BodyCount(ps)
  {
    BodyCountUpdate(ps, |ps| - 1, ps[|ps| - 1].(dst := name));
  }

  lemma StepCounts(r: Reading, m: Meaning)
    requires GoodReading(r) && StepOn(r, m).Some?
    ensures BodyCount(StepOn(r, m).value.patches) == BodyCount(r.patches) + (if m.Body? then 1 else 0)
  {
    match m
    case SrcFile(name) => AddPatchCounts(r.patches, Patch(name, "", []));
    case DstFile(name) => SetDstCounts(r.patches, name);
    case ChunkStart(a, b) => AddChunkCounts(r.patches, Chunk([], a, b));
    case Body(l) => AddLineCounts(r, l);
    case Bad =>
  }

  lemma {:induction false} ReadCounts(r: Reading, lines: seq<string>)
    requires GoodReading(r) && ReadAll(r, lines).Some?
    ensures BodyCount(ReadAll(r, lines).value.patches) == BodyCount(r.patches) + BodiesIn(lines)
    decreases |lines|
  {
    if lines == [] {
    } else {
      StepCounts(r, Classify(lines[0]));
      ReadCounts(Step(r, lines[0]).value, lines[1..]);
      BodiesConcat([lines[0]], lines[1..]);
      assert [lines[0]] + lines[1..] == lines;
      assert [lines[0]][..0] == [];
    }
  }

  lemma {:induction false} BodiesConcat(a: seq<string>, b: seq<string>)
    ensures BodiesIn(a + b) == BodiesIn(a) + BodiesIn(b)
    decreases |b|
  {
    if b == [] {
      assert a + b == a;
    } else {
      assert (a + b)[..|a + b| - 1] == a + b[..|b| - 1];
      BodiesConcat(a, b[..|b| - 1]);
    }
  }

  lemma BodiesOfOne(line: string)
    ensures BodiesIn([line]) == if Classify(line).Body? then 1 else 0
  {
    assert [line][..0] == [];
  }

  ghost predicate CleanLines(lines: seq<Line>) {
    forall i :: 0 <= i < |lines| ==> CleanLine(lines[i])
  }

  lemma CleanLinesSnoc(lines: seq<Line>, line: Line)
    ensures CleanLines(lines + [line]) <==> CleanLines(lines) && CleanLine(line)
  {
    var all := lines + [line];
    if CleanLines(all) {
      assert all[|lines|] == line;
      forall i | 0 <= i < |lines| ensures CleanLine(lines[i]) { assert all[i] == lines[i]; }
    }
  }

  lemma BodiesOfLine(line: Line)
    requires NoNewline(line.text)
    ensures BodiesIn([WriteLine(line)]) == if CleanLine(line) then 1 else 0
  {
    ClassifyBody(line);
    BodiesOfOne(WriteLine(line));
  }

  lemma {:induction false} BodiesOfLines(lines: seq<Line>)
    requires forall i :: 0 <= i < |lines| ==> NoNewline(lines[i].text)
    ensures BodiesIn(WriteLines(lines)) <= |lines|
    ensures BodiesIn(WriteLines(lines)) == |lines| <==> CleanLines(lines)
    decreases |lines|
  {
    if lines == [] {
    } else {
      var front, last := lines[..|lines| - 1], lines[|lines| - 1];
      BodiesOfLines(front);
      BodiesOfLine(last);
      BodiesConcat(WriteLines(front), [WriteLine(last)]);
      CleanLinesSnoc(front, last);
      FrontLast(lines);
    }
  }

  ghost predicate CleanChunks(chunks: seq<Chunk>) {
    forall i :: 0 <= i < |chunks| ==> CleanChunk(chunks[i])
  }

  lemma CleanChunksSnoc(chunks: seq<Chunk>, c: Chunk)
    ensures CleanChunks(chunks + [c]) <==> CleanChunks(chunks) && CleanChunk(c)
  {
    var all := chunks + [c];
    if CleanChunks(all) {
      assert all[|chunks|] == c;
      forall i | 0 <= i < |chunks| ensures CleanChunk(chunks[i]) { assert all[i] == chunks[i]; }
    }
  }

  lemma WriteChunksSnoc(chunks: seq<Chunk>, c: Chunk)
    ensures WriteChunks(chunks + [c]) == WriteChunks(chunks) + WriteChunk(c)
    ensures ChunkLines(chunks + [c]) == ChunkLines(chunks) + |c.lines|
  {
    assert (chunks + [c])[..|chunks|] == chunks;
  }

  lemma BodiesOfChunk(c: Chunk)
    requires PlainChunk(c)
    ensures BodiesIn(WriteChunk(c)) <= |c.lines|
    ensures BodiesIn(WriteChunk(c)) == |c.lines| <==> CleanChunk(c)
  {
    BodiesOfLines(c.lines);
    ClassifyHeader(c);
    BodiesConcat([Header(c)], WriteLines(c.lines));
    BodiesOfOne(Header(c));
  }

  lemma {:induction false} BodiesOfChunks(chunks: seq<Chunk>)
    requires forall i :: 0 <= i < |chunks| ==> PlainChunk(chunks[i])
    ensures BodiesIn(WriteChunks(chunks)) <= ChunkLines(chunks)
    ensures BodiesIn(WriteChunks(chunks)) == ChunkLines(chunks) <==> CleanChunks(chunks)
    decreases |chunks|
  {
    if chunks == [] {
    } else {
      var front, c := chunks[..|chunks| - 1], chunks[|chunks| - 1];
      BodiesOfChunks(front);
      BodiesOfChunk(c);
      BodiesConcat(WriteChunks(front), WriteChunk(c));
      CleanChunksSnoc(front, c);
      WriteChunksSnoc(front, c);
      FrontLast(chunks);
    }
  }

  lemma BodiesOfPatch(p: Patch)
    requires PlainPatch(p)
    ensures BodiesIn(WritePatch(p)) <= ChunkLines(p.chunks)
    ensures BodiesIn(WritePatch(p)) == ChunkLines(p.chunks) <==> CleanPatch(p)
  {
    var l1, l2 := "--- " + p.src + "\n", "+++ " + p.dst + "\n";
    ClassifySrc(p.src);
    ClassifyDst(p.dst);
    BodiesOfChunks(p.chunks);
    BodiesOfOne(l1);
    BodiesOfOne(l2);
    BodiesConcat([l1], [l2]);
    assert [l1] + [l2] == [l1, l2];
    BodiesConcat([l1, l2], WriteChunks(p.chunks));
  }

  lemma {:induction false} BodiesOfAll(ps: seq<Patch>)
    requires Plain(ps)
    ensures BodiesIn(WriteAll(ps)) <= BodyCount(ps)
    ensures BodiesIn(WriteAll(ps)) == BodyCount(ps) <==> Clean(ps)
    decreases |ps|
  {
    if ps == [] {
    } else {
      var front, p := ps[..|ps| - 1], ps[|ps| - 1];
      BodiesOfAll(front);
      BodiesOfPatch(p);
      BodiesConcat(WriteAll(front), WritePatch(p));
    }
  }

  /** A patch set of newline-free text and nonnegative positions is read back as
      written exactly when no removed line begins with "-- " and no added line
      with "++ ". */
  lemma RoundTripIff(ps: seq<Patch>)
    requires Plain(ps)
    ensures Parsed(WriteAll(ps)) == Some(ps) <==> Clean(ps)
  {
    BodiesOfAll(ps);
    if Clean(ps) {
      var r := ReadPatches(ps);
    } else if ReadAll(Nothing, WriteAll(ps)).Some? {
      ReadCounts(Nothing, WriteAll(ps));
      assert BodyCount(Nothing.patches) == 0;
    }
  }

  /** A removed line that begins with "-- " comes back as the name of a file. */
  lemma RemovedCommentIsLost()
    ensures var ps := [Patch("a", "b", [Chunk([Line(SRC, "-- x")], 1, 1)])];
      Plain(ps) && Parsed(WriteAll(ps)) != Some(ps)
  {
    var line := Line(SRC, "-- x");
    OneLineLost("a", "b", line, 1, 1);
  }

  lemma OnePatch(p: Patch)
    ensures Plain([p]) <==> PlainPatch(p)
    ensures Clean([p]) <==> CleanPatch(p)
  {
    assert [p][..0] == [];
  }

  lemma OneLineLost(src: string, dst: string, line: Line, a: nat, b: nat)
    requires NoNewline(src) && NoNewline(dst) && NoNewline(line.text) && !CleanLine(line)
    ensures var ps := [Patch(src, dst, [Chunk([line], a, b)])];
      Plain(ps) && Parsed(WriteAll(ps)) != Some(ps)
  {
    var c := Chunk([line], a, b);
    var p := Patch(src, dst, [c]);
    OnePatch(p);
    assert !CleanChunk(c) by { assert c.lines[0] == line; }
    assert !CleanPatch(p) by { assert p.chunks[0] == c; }
    RoundTripIff([p]);
  }

  // ---------- whatever is read can be written and read again ----------

  lemma {:induction false} GoodAt(ps: seq<Patch>, i: nat)
    requires Plain(ps) && Clean(ps) && i < |ps|
    ensures PlainPatch(ps[i]) && CleanPatch(ps[i])
    decreases |ps|
  {
    if i >= |ps| - 1 {
    } else {
      GoodAt(ps[..|ps| - 1], i);
    }
  }

  lemma {:induction false} GoodUpdate(ps: seq<Patch>, i: nat, p: Patch)
    requires Plain(ps) && Clean(ps) && i < |ps| && PlainPatch(p) && CleanPatch(p)
    ensures Plain(ps[i := p]) && Clean(ps[i := p])
    decreases |ps|
  {
    var n := |ps| - 1;
    if i < n {
      assert ps[i := p][..n] == ps[..n][i := p];
      GoodUpdate(ps[..n], i, p);
    } else {
      assert ps[i := p][..n] == ps[..n];
    }
  }

  lemma RestIsPlain(s: string)
    requires Rest(s).Some?
    ensures NoNewline(Rest(s).value)
    ensures Rest(s).value == s || s == Rest(s).value + "\n"
  {
    if !NoNewline(s) { assert s == s[..|s| - 1] + "\n"; }
  }

  lemma MatchIsPlain(prefix: string, line: string)
    requires Match(prefix, line).Some?
    ensures var m := Match(prefix, line).value;
      NoNewline(m) && (line == prefix + m || line == prefix + m + "\n")
  {
    RestIsPlain(line[|prefix|..]);
    assert line == prefix + line[|prefix|..];
  }

  lemma LongerMatch(prefix: string, line: string, text: string)
    requires |prefix| == 4 && StartsWith(text, prefix[1..]) && NoNewline(text)
    requires line == prefix[..1] + text || line == prefix[..1] + text + "\n"
    ensures Match(prefix, line).Some?
  {
    assert line[..4] == prefix[..1] + text[..3];
    assert StartsWith(line, prefix);
    NoNewlineSuffix(text, 3);
    if line == prefix[..1] + text {
      assert line[4..] == text[3..];
    } else {
      assert line[4..] == text[3..] + "\n";
      RestOf(text[3..]);
    }
  }

  /** A body line that begins like a file name line would have been taken for one. */
  lemma BodyIsClean(line: string)
    requires Classify(line).Body?
    ensures NoNewline(Classify(line).line.text) && CleanLine(Classify(line).line)
  {
    var l := Classify(line).line;
    match l.kind
    case SRC =>
      MatchIsPlain("-", line);
      if StartsWith(l.text, "-- ") { LongerMatch("--- ", line, l.text); }
    case DST =>
      MatchIsPlain("+", line);
      if StartsWith(l.text, "++ ") { LongerMatch("+++ ", line, l.text); }
    case BOTH =>
      MatchIsPlain(" ", line);
  }

  lemma AddLineKeepsGood(c: Chunk, line: Line)
    requires PlainChunk(c) && CleanChunk(c) && NoNewline(line.text) && CleanLine(line)
    ensures PlainChunk(c.(lines := c.lines + [line])) && CleanChunk(c.(lines := c.lines + [line]))
  {}

  lemma ChunkUpdateKeepsGood(p: Patch, j: nat, c: Chunk)
    requires PlainPatch(p) && CleanPatch(p) && j < |p.chunks| && PlainChunk(c) && CleanChunk(c)
    ensures PlainPatch(p.(chunks := p.chunks[j := c])) && CleanPatch(p.(chunks := p.chunks[j := c]))
  {}

  lemma ChunkSnocKeepsGood(p: Patch, c: Chunk)
    requires PlainPatch(p) && CleanPatch(p) && PlainChunk(c) && CleanChunk(c)
    ensures PlainPatch(p.(chunks := p.chunks + [c])) && CleanPatch(p.(chunks := p.chunks + [c]))
  {}

  lemma PatchSnocKeepsGood(ps: seq<Patch>, p: Patch)
    requires Plain(ps) && Clean(ps) && PlainPatch(p) && CleanPatch(p)
    ensures Plain(ps + [p]) && Clean(ps + [p])
  {
    assert (ps + [p])[..|ps|] == ps;
  }

  lemma SetDstKeepsGood(ps: seq<Patch>, name: string)
    requires Plain(ps) && Clean(ps) && ps != [] && NoNewline(name)
    ensures var qs := ps[|ps| - 1 := ps[|ps| - 1].(dst := name)]; Plain(qs) && Clean(qs)
  {
    var p := ps[|ps| - 1].(dst := name);
    GoodAt(ps, |ps| - 1);
    assert PlainPatch(p) && CleanPatch(p);
    GoodUpdate(ps, |ps| - 1, p);
  }

  lemma AddChunkKeepsGood(ps: seq<Patch>, a: nat, b: nat)
    requires Plain(ps) && Clean(ps) && ps != []
    ensures var p := ps[|ps| - 1];
      var qs := ps[|ps| - 1 := p.(chunks := p.chunks + [Chunk([], a, b)])];
      Plain(qs) && Clean(qs)
  {
    var p := ps[|ps| - 1];
    GoodAt(ps, |ps| - 1);
    ChunkSnocKeepsGood(p, Chunk([], a, b));
    GoodUpdate(ps, |ps| - 1, p.(chunks := p.chunks + [Chunk([], a, b)]));
  }

  lemma BodyKeepsGood(r: Reading, line: Line)
    requires GoodReading(r) && Plain(r.patches) && Clean(r.patches) && r.chunkAt.Some?
    requires NoNewline(line.text) && CleanLine(line)
    ensures Plain(AddLine(r, line).patches) && Clean(AddLine(r, line).patches)
  {
    var (i, j) := r.chunkAt.value;
    var p := r.patches[i];
    var c := p.chunks[j].(lines := p.chunks[j].lines + [line]);
    GoodAt(r.patches, i);
    AddLineKeepsGood(p.chunks[j], line);
    ChunkUpdateKeepsGood(p, j, c);
    GoodUpdate(r.patches, i, p.(chunks := p.chunks[j := c]));
  }

  /** What a line can mean: names and text without newline, clean body lines. */
  ghost predicate GoodMeaning(m: Meaning) {
    match m
    case SrcFile(name) => NoNewline(name)
    case DstFile(name) => NoNewline(name)
    case Body(l) => NoNewline(l.text) && CleanLine(l)
    case _ => true
  }

  lemma ClassifyIsGood(line: string)
    ensures GoodMeaning(Classify(line))
  {
    match Classify(line)
    case SrcFile(_) => MatchIsPlain("--- ", line);
    case DstFile(_) => MatchIsPlain("+++ ", line);
    case Body(_) => BodyIsClean(line);
    case _ =>
  }

  lemma StepKeepsGood(r: Reading, m: Meaning)
    requires GoodReading(r) && Plain(r.patches) && Clean(r.patches) && StepOn(r, m).Some? && GoodMeaning(m)
    ensures Plain(StepOn(r, m).value.patches) && Clean(StepOn(r, m).value.patches)
  {
    match m
    case SrcFile(name) => PatchSnocKeepsGood(r.patches, Patch(name, "", []));
    case DstFile(name) => SetDstKeepsGood(r.patches, name);
    case ChunkStart(a, b) => AddChunkKeepsGood(r.patches, a, b);
    case Body(l) => BodyKeepsGood(r, l);
    case Bad =>
  }

  lemma {:induction false} ReadKeepsGood(r: Reading, lines: seq<string>)
    requires GoodReading(r) && Plain(r.patches) && Clean(r.patches) && ReadAll(r, lines).Some?
    ensures Plain(ReadAll(r, lines).value.patches) && Clean(ReadAll(r, lines).value.patches)
    decreases |lines|
  {
    if lines == [] {
    } else {
      ClassifyIsGood(lines[0]);
      StepKeepsGood(r, Classify(lines[0]));
      ReadKeepsGood(Step(r, lines[0]).value, lines[1..]);
    }
  }

  /** Any text that is read at all has its patches back after being written and
      read again: writing with recomputed counts is a normal form. */
  lemma ReadWriteRead(lines: seq<string>)
    requires Parsed(lines).Some?
    ensures Parsed(WriteAll(Parsed(lines).value)) == Parsed(lines)
  {
    ReadKeepsGood(Nothing, lines);
    var r := ReadPatches(Parsed(lines).value);
  }

  // ---------- the file in between ----------

  function Join(lines: seq<string>): string {
    if lines == [] then "" else lines[0] + Join(lines[1..])
  }

  function LineEnd(text: string): (n: nat)
    ensures n <= |text| && (text != "" ==> n > 0)
  {
    if text == "" then 0 else if text[0] == '\n' then 1 else 1 + LineEnd(text[1..])
  }

  /** The lines of a file as iteration yields them, each with its newline. */
  function SplitLines(text: string): seq<string>
    decreases |text|
  {
    if text == "" then [] else [text[..LineEnd(text)]] + SplitLines(text[LineEnd(text)..])
  }

  predicate WholeLine(line: string) {
    line != "" && line[|line| - 1] == '\n' && NoNewline(line[..|line| - 1])
  }

  lemma {:induction false} LineEndOf(line: string, rest: string)
    requires WholeLine(line)
    ensures LineEnd(line + rest) == |line|
  {
    assert (line + rest)[1..] == line[1..] + rest;
    if |line| <= 1 {
    } else {
      assert line[..|line| - 1][0] == line[0];
      assert line[1..][..|line[1..]| - 1] == line[..|line| - 1][1..];
      NoNewlineSuffix(line[..|line| - 1], 1);
      LineEndOf(line[1..], rest);
    }
  }

  lemma {:induction false} SplitJoin(lines: seq<string>)
    requires forall i :: 0 <= i < |lines| ==> WholeLine(lines[i])
    ensures SplitLines(Join(lines)) == lines
    decreases |lines|
  {
    if lines == [] {
    } else {
      var text := Join(lines);
      LineEndOf(lines[0], Join(lines[1..]));
      assert text[..|lines[0]|] == lines[0] && text[|lines[0]|..] == Join(lines[1..]);
      SplitJoin(lines[1..]);
    }
  }

  lemma WholeLineOf(prefix: string, s: string)
    requires NoNewline(prefix) && NoNewline(s)
    ensures WholeLine(prefix + s + "\n")
  {
    assert (prefix + s + "\n")[..|prefix + s|] == prefix + s;
  }

  lemma {:induction false} DecimalNoNewline(n: nat)
    ensures NoNewline(Decimal(n))
  {
    DecimalDigits(n);
    forall i | 0 <= i < |Decimal(n)| ensures Decimal(n)[i] != '\n' {
      assert IsDigit(Decimal(n)[i]);
    }
  }

  lemma HeaderIsWholeLine(a: string, b: string, c: string, d: string)
    requires NoNewline(a) && NoNewline(b) && NoNewline(c) && NoNewline(d)
    ensures WholeLine(HeaderText(a, b, c, d))
  {
    var s := "@@ -" + (a + "," + (b + " +" + (c + "," + (d + " @@"))));
    assert HeaderText(a, b, c, d) == s + "\n";
    assert s + "\n" == "" + s + "\n";
    WholeLineOf("", s);
  }

  ghost predicate WholeLines(lines: seq<string>) {
    forall i :: 0 <= i < |lines| ==> WholeLine(lines[i])
  }

  lemma {:induction false} LinesAreWhole(lines: seq<Line>)
    requires forall i :: 0 <= i < |lines| ==> NoNewline(lines[i].text)
    ensures WholeLines(WriteLines(lines))
    decreases |lines|
  {
    if lines == [] {
    } else {
      LinesAreWhole(lines[..|lines| - 1]);
      WholeLineOf([Sign(lines[|lines| - 1].kind)], lines[|lines| - 1].text);
    }
  }

  lemma {:induction false} ChunksAreWhole(chunks: seq<Chunk>)
    requires forall i :: 0 <= i < |chunks| ==> PlainChunk(chunks[i])
    ensures WholeLines(WriteChunks(chunks))
    decreases |chunks|
  {
    if chunks == [] {
    } else {
      var c := chunks[|chunks| - 1];
      ChunksAreWhole(chunks[..|chunks| - 1]);
      LinesAreWhole(c.lines);
      DecimalNoNewline(c.srcPos);
      DecimalNoNewline(c.dstPos);
      DecimalNoNewline(SrcLen(c.lines));
      DecimalNoNewline(DstLen(c.lines));
      HeaderIsWholeLine(Format(c.srcPos), Decimal(SrcLen(c.lines)), Format(c.dstPos), Decimal(DstLen(c.lines)));
    }
  }

  lemma PatchIsWhole(p: Patch)
    requires PlainPatch(p)
    ensures WholeLines(WritePatch(p))
  {
    ChunksAreWhole(p.chunks);
    WholeLineOf("--- ", p.src);
    WholeLineOf("+++ ", p.dst);
  }

  lemma {:induction false} AllAreWhole(ps: seq<Patch>)
    requires Plain(ps)
    ensures WholeLines(WriteAll(ps))
    decreases |ps|
  {
    if ps == [] {
    } else {
      var p := ps[|ps| - 1];
      AllAreWhole(ps[..|ps| - 1]);
      PatchIsWhole(p);
    }
  }

  /** The round trip through the text of a file. */
  lemma FileRoundTripIff(ps: seq<Patch>)
    requires Plain(ps)
    ensures Parsed(SplitLines(Join(WriteAll(ps)))) == Some(ps) <==> Clean(ps)
  {
    AllAreWhole(ps);
    SplitJoin(WriteAll(ps));
    RoundTripIff(ps);
  }
}
