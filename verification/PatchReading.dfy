/** What parse_patchset makes of a whole text, said without its loop: which name, header and
    body lines belong together, whether or not their order makes sense, and which texts are
    refused. The lists below look forward from a line; the loop looks back at the patch and
    the chunk that it created last. */
module PatchReading {
  import opened Common
  import opened PatchText

  ghost function Meanings(lines: seq<string>): seq<Meaning> {
    if lines == [] then [] else [Classify(lines[0])] + Meanings(lines[1..])
  }

  /** The body lines up to the next header, even past the names of other files. */
  ghost function BodiesAhead(ms: seq<Meaning>): seq<Line> {
    if ms == [] || ms[0].ChunkStart? then []
    else if ms[0].Body? then [ms[0].line] + BodiesAhead(ms[1..])
    else BodiesAhead(ms[1..])
  }

  /** The chunks that begin before the next source name. */
  ghost function ChunksAhead(ms: seq<Meaning>): seq<Chunk> {
    if ms == [] || ms[0].SrcFile? then []
    else if ms[0].ChunkStart? then [Chunk(BodiesAhead(ms[1..]), ms[0].src, ms[0].dst)] + ChunksAhead(ms[1..])
    else ChunksAhead(ms[1..])
  }

  /** The last destination name before the next source name, or name if there is none. */
  ghost function NameAhead(ms: seq<Meaning>, name: string): string {
    if ms == [] || ms[0].SrcFile? then name
    else NameAhead(ms[1..], if ms[0].DstFile? then ms[0].name else name)
  }

  /** One patch per source name. */
  ghost function PatchesAhead(ms: seq<Meaning>): seq<Patch> {
    if ms == [] then []
    else if ms[0].SrcFile? then
      [Patch(ms[0].name, NameAhead(ms[1..], ""), ChunksAhead(ms[1..]))] + PatchesAhead(ms[1..])
    else PatchesAhead(ms[1..])
  }

  /** Every line means something; a destination name or a header comes after a source name
      (unless there is a patch already), and a body line after a header (or a chunk). */
  ghost predicate Placed(ms: seq<Meaning>, patch: bool, chunk: bool) {
    forall k :: 0 <= k < |ms| ==>
      match ms[k]
      case SrcFile(_) => true
      case DstFile(_) => patch || exists j :: 0 <= j < k && ms[j].SrcFile?
      case ChunkStart(_, _) => patch || exists j :: 0 <= j < k && ms[j].SrcFile?
      case Body(_) => chunk || exists j :: 0 <= j < k && ms[j].ChunkStart?
      case Bad => false
  }

  ghost predicate PlacedHere(m: Meaning, patch: bool, chunk: bool) {
    match m
    case SrcFile(_) => true
    case DstFile(_) => patch
    case ChunkStart(_, _) => patch
    case Body(_) => chunk
    case Bad => false
  }

  lemma PlacedTail(ms: seq<Meaning>, patch: bool, chunk: bool)
    requires ms != []
    ensures Placed(ms, patch, chunk) <==>
      PlacedHere(ms[0], patch, chunk) && Placed(ms[1..], patch || ms[0].SrcFile?, chunk || ms[0].ChunkStart?)
  {
    var rest := ms[1..];
    assert forall k :: 0 <= k < |rest| ==> rest[k] == ms[k + 1];
    assert forall k :: 1 <= k < |ms| ==> ms[k] == rest[k - 1];
  }

  // ---------- from the middle of the loop on ----------

  ghost predicate GoodAt(ps: seq<Patch>, at: Option<(nat, nat)>) {
    at.Some? ==> at.value.0 < |ps| && at.value.1 < |ps[at.value.0].chunks|
  }

  /** The patches when lines have been added to the chunk at this place. */
  ghost function WithBodies(ps: seq<Patch>, at: Option<(nat, nat)>, lines: seq<Line>): seq<Patch>
    requires GoodAt(ps, at)
  {
    if at.None? then ps
    else
      var (i, j) := at.value;
      var c := ps[i].chunks[j];
      ps[i := ps[i].(chunks := ps[i].chunks[j := c.(lines := c.lines + lines)])]
  }

  ghost function WithRest(ps: seq<Patch>, name: string, chunks: seq<Chunk>): seq<Patch>
    requires ps != []
  {
    var p := ps[|ps| - 1];
    ps[|ps| - 1 := p.(dst := name, chunks := p.chunks + chunks)]
  }

  /** What the patches become when the lines that mean ms have been read. */
  ghost function Final(r: Reading, ms: seq<Meaning>): seq<Patch>
    requires GoodReading(r)
  {
    var ps := WithBodies(r.patches, r.chunkAt, BodiesAhead(ms));
    if ps == [] then PatchesAhead(ms)
    else WithRest(ps, NameAhead(ms, ps[|ps| - 1].dst), ChunksAhead(ms)) + PatchesAhead(ms)
  }

  lemma FinalSrc(r: Reading, name: string, ms: seq<Meaning>)
    requires GoodReading(r)
    ensures var t := r.(patches := r.patches + [Patch(name, "", [])]);
      GoodReading(t) && Final(t, ms) == Final(r, [SrcFile(name)] + ms)
  {
    var added := Patch(name, "", []);
    var all := [SrcFile(name)] + ms;
    assert all[1..] == ms;
    var ps := WithBodies(r.patches, r.chunkAt, BodiesAhead(ms));
    assert WithBodies(r.patches + [added], r.chunkAt, BodiesAhead(ms)) == ps + [added];
    var last := Patch(name, NameAhead(ms, ""), ChunksAhead(ms));
    assert [] + ChunksAhead(ms) == ChunksAhead(ms);
    assert WithRest(ps + [added], NameAhead(ms, ""), ChunksAhead(ms)) == ps + [last];
    if ps != [] { NoRest(ps); }
    assert (ps + [last]) + PatchesAhead(ms) == ps + ([last] + PatchesAhead(ms));
  }

  lemma NoRest(ps: seq<Patch>)
    requires ps != []
    ensures WithRest(ps, ps[|ps| - 1].dst, []) == ps
  {
    assert ps[|ps| - 1].chunks + [] == ps[|ps| - 1].chunks;
  }

  lemma FinalDst(r: Reading, name: string, ms: seq<Meaning>)
    requires GoodReading(r) && r.patches != []
    ensures var n := |r.patches| - 1;
      var t := r.(patches := r.patches[n := r.patches[n].(dst := name)]);
      GoodReading(t) && Final(t, ms) == Final(r, [DstFile(name)] + ms)
  {
    var n := |r.patches| - 1;
    var t := r.(patches := r.patches[n := r.patches[n].(dst := name)]);
    var all := [DstFile(name)] + ms;
    assert all[1..] == ms;
    var ps := WithBodies(r.patches, r.chunkAt, BodiesAhead(ms));
    assert WithBodies(t.patches, t.chunkAt, BodiesAhead(ms)) == ps[n := ps[n].(dst := name)];
  }

  lemma FinalChunk(r: Reading, a: nat, b: nat, ms: seq<Meaning>)
    requires GoodReading(r) && r.patches != []
    ensures var n := |r.patches| - 1;
      var p := r.patches[n];
      var t := Reading(r.patches[n := p.(chunks := p.chunks + [Chunk([], a, b)])], Some((n, |p.chunks|)));
      GoodReading(t) && Final(t, ms) == Final(r, [ChunkStart(a, b)] + ms)
  {
    var n := |r.patches| - 1;
    var p := r.patches[n];
    var t := Reading(r.patches[n := p.(chunks := p.chunks + [Chunk([], a, b)])], Some((n, |p.chunks|)));
    var all := [ChunkStart(a, b)] + ms;
    assert all[1..] == ms;
    var lines := BodiesAhead(ms);
    NoBodies(r.patches, r.chunkAt);
    var q := p.(chunks := p.chunks + [Chunk(lines, a, b)]);
    assert (p.chunks + [Chunk([], a, b)])[|p.chunks| := Chunk(lines, a, b)] == q.chunks;
    assert [] + lines == lines;
    assert WithBodies(t.patches, t.chunkAt, lines) == r.patches[n := q];
    assert q.chunks + ChunksAhead(ms) == p.chunks + ([Chunk(lines, a, b)] + ChunksAhead(ms));
  }

  lemma NoBodies(ps: seq<Patch>, at: Option<(nat, nat)>)
    requires GoodAt(ps, at)
    ensures WithBodies(ps, at, []) == ps
  {
    if at.Some? {
      var (i, j) := at.value;
      var c := ps[i].chunks[j];
      assert c.lines + [] == c.lines;
      assert ps[i].chunks[j := c] == ps[i].chunks;
    }
  }

  lemma MoreBodies(ps: seq<Patch>, at: Option<(nat, nat)>, line: Line, lines: seq<Line>)
    requires GoodAt(ps, at) && at.Some?
    ensures GoodAt(WithBodies(ps, at, [line]), at)
    ensures WithBodies(WithBodies(ps, at, [line]), at, lines) == WithBodies(ps, at, [line] + lines)
  {
    var (i, j) := at.value;
    var c := ps[i].chunks[j];
    var c1, c2 := c.(lines := c.lines + [line]), c.(lines := c.lines + ([line] + lines));
    assert c.lines + [line] + lines == c.lines + ([line] + lines);
    assert ps[i].chunks[j := c1][j := c2] == ps[i].chunks[j := c2];
  }

  lemma FinalBody(r: Reading, line: Line, ms: seq<Meaning>)
    requires GoodReading(r) && r.chunkAt.Some?
    ensures GoodReading(AddLine(r, line)) && Final(AddLine(r, line), ms) == Final(r, [Body(line)] + ms)
  {
    var all := [Body(line)] + ms;
    assert all[1..] == ms;
    assert AddLine(r, line).patches == WithBodies(r.patches, r.chunkAt, [line]);
    MoreBodies(r.patches, r.chunkAt, line, BodiesAhead(ms));
  }

  lemma FinalStep(r: Reading, m: Meaning, ms: seq<Meaning>)
    requires GoodReading(r) && PlacedHere(m, r.patches != [], r.chunkAt.Some?)
    ensures StepOn(r, m).Some?
    ensures var t := StepOn(r, m).value;
      && Final(t, ms) == Final(r, [m] + ms)
      && (t.patches != [] <==> r.patches != [] || m.SrcFile?)
      && (t.chunkAt.Some? <==> r.chunkAt.Some? || m.ChunkStart?)
  {
    match m
    case SrcFile(name) => FinalSrc(r, name, ms);
    case DstFile(name) => FinalDst(r, name, ms);
    case ChunkStart(a, b) => FinalChunk(r, a, b, ms);
    case Body(line) => FinalBody(r, line, ms);
  }

  lemma FinalEnd(r: Reading)
    requires GoodReading(r)
    ensures Final(r, []) == r.patches
  {
    NoBodies(r.patches, r.chunkAt);
    if r.patches != [] { NoRest(r.patches); }
  }

  lemma {:induction false} ReadFinal(r: Reading, lines: seq<string>)
    requires GoodReading(r)
    ensures ReadAll(r, lines).Some? <==> Placed(Meanings(lines), r.patches != [], r.chunkAt.Some?)
    ensures ReadAll(r, lines).Some? ==> ReadAll(r, lines).value.patches == Final(r, Meanings(lines))
    decreases |lines|
  {
    if lines == [] {
      FinalEnd(r);
    } else {
      var m, ms := Classify(lines[0]), Meanings(lines[1..]);
      assert Meanings(lines)[1..] == ms;
      PlacedTail(Meanings(lines), r.patches != [], r.chunkAt.Some?);
      if PlacedHere(m, r.patches != [], r.chunkAt.Some?) {
        FinalStep(r, m, ms);
        ReadFinal(StepOn(r, m).value, lines[1..]);
      } else {
        Misplaced(r, m);
      }
    }
  }

  lemma Misplaced(r: Reading, m: Meaning)
    requires GoodReading(r) && !PlacedHere(m, r.patches != [], r.chunkAt.Some?)
    ensures StepOn(r, m) == None
  {}

  /** A text is read exactly when each of its lines means something and is well placed; what
      is read is one patch per source name, with the names, headers and bodies ahead of it. */
  lemma ParsedIs(lines: seq<string>)
    ensures Parsed(lines)
      == if Placed(Meanings(lines), false, false) then Some(PatchesAhead(Meanings(lines))) else None
  {
    ReadFinal(Nothing, lines);
  }
}
