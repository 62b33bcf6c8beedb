/** Unified-diff text: the lines that Patch.write emits and the line-by-line reading of
    parse_patchset, on values. The patterns of the source are prefix tests and decimal
    numbers here; a line means the name of a file, the start of a chunk, or a line of
    the current chunk. */
module PatchText {
  import opened Common

  datatype Kind = SRC | DST | BOTH
  datatype Line = Line(kind: Kind, text: string)
  datatype Chunk = Chunk(lines: seq<Line>, srcPos: int, dstPos: int)
  datatype Patch = Patch(src: string, dst: string, chunks: seq<Chunk>)

  // ---------- writing ----------

  function Digit(d: nat): char
    requires d < 10
  {
    ['0', '1', '2', '3', '4', '5', '6', '7', '8', '9'][d]
  }

  function Decimal(n: nat): string {
    if n < 10 then [Digit(n)] else Decimal(n / 10) + [Digit(n % 10)]
  }

  /** '%d' */
  function Format(i: int): string {
    if i < 0 then "-" + Decimal(-i) else Decimal(i)
  }

  function Sign(kind: Kind): char {
    match kind case SRC => '-' case DST => '+' case BOTH => ' '
  }

  function WriteLine(line: Line): string {
    [Sign(line.kind)] + line.text + "\n"
  }

  predicate IsSrc(line: Line) {
    line.kind != DST
  }

  predicate IsDst(line: Line) {
    line.kind != SRC
  }

  function SrcLen(lines: seq<Line>): nat {
    if lines == [] then 0 else SrcLen(lines[..|lines| - 1]) + (if IsSrc(lines[|lines| - 1]) then 1 else 0)
  }

  function DstLen(lines: seq<Line>): nat {
    if lines == [] then 0 else DstLen(lines[..|lines| - 1]) + (if IsDst(lines[|lines| - 1]) then 1 else 0)
  }

  function HeaderText(a: string, b: string, c: string, d: string): string {
    "@@ -" + (a + "," + (b + " +" + (c + "," + (d + " @@" + "\n"))))
  }

  function Header(c: Chunk): string {
    HeaderText(Format(c.srcPos), Decimal(SrcLen(c.lines)), Format(c.dstPos), Decimal(DstLen(c.lines)))
  }

  function WriteLines(lines: seq<Line>): seq<string> {
    if lines == [] then [] else WriteLines(lines[..|lines| - 1]) + [WriteLine(lines[|lines| - 1])]
  }

  function WriteChunk(c: Chunk): seq<string> {
    [Header(c)] + WriteLines(c.lines)
  }

  function WriteChunks(chunks: seq<Chunk>): seq<string> {
    if chunks == [] then [] else WriteChunks(chunks[..|chunks| - 1]) + WriteChunk(chunks[|chunks| - 1])
  }

  function WritePatch(p: Patch): seq<string> {
    ["--- " + p.src + "\n", "+++ " + p.dst + "\n"] + WriteChunks(p.chunks)
  }

  /** What is written for a patch set, one string per line. */
  function WriteAll(ps: seq<Patch>): seq<string> {
    if ps == [] then [] else WriteAll(ps[..|ps| - 1]) + WritePatch(ps[|ps| - 1])
  }

  // ---------- matching one line ----------

  predicate StartsWith(s: string, prefix: string) {
    |prefix| <= |s| && s[..|prefix|] == prefix
  }

  predicate NoNewline(s: string) {
    forall i :: 0 <= i < |s| ==> s[i] != '\n'
  }

  /** (.*)$ : the rest of the line, where one newline may end it. */
  function Rest(s: string): Option<string> {
    if NoNewline(s) then Some(s)
    else if s[|s| - 1] == '\n' && NoNewline(s[..|s| - 1]) then Some(s[..|s| - 1])
    else None
  }

  function Match(prefix: string, line: string): Option<string> {
    if StartsWith(line, prefix) then Rest(line[|prefix|..]) else None
  }

  predicate IsDigit(c: char) {
    '0' <= c <= '9'
  }

  function Value(c: char): nat
    requires IsDigit(c)
  {
    c as int - '0' as int
  }

  /** How many digits s begins with. */
  function Digits(s: string): (n: nat)
    ensures n <= |s|
  {
    if s == "" || !IsDigit(s[0]) then 0 else 1 + Digits(s[1..])
  }

  predicate AllDigits(s: string) {
    forall i :: 0 <= i < |s| ==> IsDigit(s[i])
  }

  /** int() of a digit string. */
  function Number(s: string): nat
    requires AllDigits(s)
  {
    if s == "" then 0 else 10 * Number(s[..|s| - 1]) + Value(s[|s| - 1])
  }

  lemma {:induction false} DigitsAreDigits(s: string)
    ensures AllDigits(s[..Digits(s)])
  {
    if s == "" || !IsDigit(s[0]) {
    } else {
      DigitsAreDigits(s[1..]);
      assert s[..Digits(s)] == [s[0]] + s[1..][..Digits(s[1..])];
    }
  }

  /** ([0-9]+) followed by a literal: the number and what comes after the literal. */
  function TakeNumber(s: string, literal: string): Option<(nat, string)> {
    var n := Digits(s);
    DigitsAreDigits(s);
    if n > 0 && StartsWith(s[n..], literal) then Some((Number(s[..n]), s[n + |literal|..])) else None
  }

  /** The chunk header: both positions, and counts that are read but not kept. */
  function MatchHeader(line: string): Option<(nat, nat)> {
    if !StartsWith(line, "@@ -") then None
    else
      match TakeNumber(line[4..], ",")
      case None => None
      case Some(a) =>
        match TakeNumber(a.1, " +")
        case None => None
        case Some(b) =>
          match TakeNumber(b.1, ",")
          case None => None
          case Some(c) =>
            match TakeNumber(c.1, " @@")
            case None => None
            case Some(_) => Some((a.0, c.0))
  }

  datatype Meaning =
    | SrcFile(name: string) | DstFile(name: string) | ChunkStart(src: nat, dst: nat) | Body(line: Line) | Bad

  /** The tests of the loop, in its order. */
  function Classify(line: string): Meaning {
    if Match("--- ", line).Some? then SrcFile(Match("--- ", line).value)
    else if Match("+++ ", line).Some? then DstFile(Match("+++ ", line).value)
    else if MatchHeader(line).Some? then ChunkStart(MatchHeader(line).value.0, MatchHeader(line).value.1)
    else if Match("-", line).Some? then Body(Line(SRC, Match("-", line).value))
    else if Match("+", line).Some? then Body(Line(DST, Match("+", line).value))
    else if Match(" ", line).Some? then Body(Line(BOTH, Match(" ", line).value))
    else Bad
  }

  // ---------- reading ----------

  /** current_patch is the last patch; current_chunk is the chunk created last,
      wherever it is: a new patch does not reset it. */
  datatype Reading = Reading(patches: seq<Patch>, chunkAt: Option<(nat, nat)>)

  predicate GoodReading(r: Reading) {
    r.chunkAt.Some? ==> r.chunkAt.value.0 < |r.patches| && r.chunkAt.value.1 < |r.patches[r.chunkAt.value.0].chunks|
  }

  function AddLine(r: Reading, line: Line): Reading
    requires GoodReading(r) && r.chunkAt.Some?
  {
    var (i, j) := r.chunkAt.value;
    var p := r.patches[i];
    var c := p.chunks[j];
    r.(patches := r.patches[i := p.(chunks := p.chunks[j := c.(lines := c.lines + [line])])])
  }

  /** One round of the loop for a line that means m; None stands for an exception. */
  function StepOn(r: Reading, m: Meaning): (r': Option<Reading>)
    requires GoodReading(r)
    ensures r'.Some? ==> GoodReading(r'.value)
  {
    var n := |r.patches|;
    match m
    case SrcFile(name) => Some(r.(patches := r.patches + [Patch(name, "", [])]))
    case DstFile(name) =>
      if n == 0 then None else Some(r.(patches := r.patches[n - 1 := r.patches[n - 1].(dst := name)]))
    case ChunkStart(a, b) =>
      if n == 0 then None
      else
        var p := r.patches[n - 1];
        Some(Reading(r.patches[n - 1 := p.(chunks := p.chunks + [Chunk([], a, b)])], Some((n - 1, |p.chunks|))))
    case Body(l) => if r.chunkAt.None? then None else Some(AddLine(r, l))
    case Bad => None
  }

  function Step(r: Reading, line: string): (r': Option<Reading>)
    requires GoodReading(r)
    ensures r'.Some? ==> GoodReading(r'.value)
  {
    StepOn(r, Classify(line))
  }

  function ReadAll(r: Reading, lines: seq<string>): (r': Option<Reading>)
    requires GoodReading(r)
    ensures r'.Some? ==> GoodReading(r'.value)
    decreases |lines|
  {
    if lines == [] then Some(r)
    else match Step(r, lines[0])
      case None => None
      case Some(t) => ReadAll(t, lines[1..])
  }

  const Nothing := Reading([], None)

  /** What parse_patchset returns; None when it raises. */
  function Parsed(lines: seq<string>): Option<seq<Patch>> {
    match ReadAll(Nothing, lines) case None => None case Some(r) => Some(r.patches)
  }

  // ---------- which patches are meant ----------

  predicate PlainChunk(c: Chunk) {
    c.srcPos >= 0 && c.dstPos >= 0 && forall i :: 0 <= i < |c.lines| ==> NoNewline(c.lines[i].text)
  }

  predicate PlainPatch(p: Patch) {
    NoNewline(p.src) && NoNewline(p.dst) && forall i :: 0 <= i < |p.chunks| ==> PlainChunk(p.chunks[i])
  }

  /** Text without newlines, positions that are not negative. */
  predicate Plain(ps: seq<Patch>) {
    ps == [] || (Plain(ps[..|ps| - 1]) && PlainPatch(ps[|ps| - 1]))
  }

  /** The written line will not be mistaken for the name of a file. */
  predicate CleanLine(line: Line) {
    match line.kind
    case SRC => !StartsWith(line.text, "-- ")
    case DST => !StartsWith(line.text, "++ ")
    case BOTH => true
  }

  predicate CleanChunk(c: Chunk) {
    forall i :: 0 <= i < |c.lines| ==> CleanLine(c.lines[i])
  }

  predicate CleanPatch(p: Patch) {
    forall i :: 0 <= i < |p.chunks| ==> CleanChunk(p.chunks[i])
  }

  predicate Clean(ps: seq<Patch>) {
    ps == [] || (Clean(ps[..|ps| - 1]) && CleanPatch(ps[|ps| - 1]))
  }

  // ---------- one written line means what was written ----------

  lemma RestOf(s: string)
    requires NoNewline(s)
    ensures Rest(s + "\n") == Some(s)
  {
    assert (s + "\n")[|s|] == '\n';
    assert (s + "\n")[..|s|] == s;
  }

  lemma MatchOf(prefix: string, s: string)
    requires NoNewline(s)
    ensures Match(prefix, prefix + s + "\n") == Some(s)
  {
    var line := prefix + s + "\n";
    assert line[..|prefix|] == prefix && line[|prefix|..] == s + "\n";
    RestOf(s);
  }

  lemma {:induction false} DecimalDigits(n: nat)
    ensures Decimal(n) != "" && AllDigits(Decimal(n)) && Number(Decimal(n)) == n
  {
    if n >= 10 {
      DecimalDigits(n / 10);
      assert Decimal(n)[..|Decimal(n)| - 1] == Decimal(n / 10);
    } else {
      assert Decimal(n)[..0] == "";
    }
  }

  lemma {:induction false} DigitsOf(s: string, rest: string)
    requires AllDigits(s) && rest != "" && !IsDigit(rest[0])
    ensures Digits(s + rest) == |s|
  {
    if s == "" {
      assert s + rest == rest;
    } else {
      assert (s + rest)[1..] == s[1..] + rest;
      DigitsOf(s[1..], rest);
    }
  }

  lemma TakeNumberOf(n: nat, literal: string, rest: string)
    requires literal != "" && !IsDigit(literal[0])
    ensures TakeNumber(Decimal(n) + literal + rest, literal) == Some((n, rest))
  {
    var s := Decimal(n);
    DecimalDigits(n);
    assert s + literal + rest == s + (literal + rest);
    DigitsOf(s, literal + rest);
    assert (s + literal + rest)[..|s|] == s;
    assert (s + literal + rest)[|s|..] == literal + rest;
    assert (s + literal + rest)[|s| + |literal|..] == rest;
  }

  lemma HeaderOf(a: nat, b: nat, c: nat, d: nat)
    ensures MatchHeader(HeaderText(Decimal(a), Decimal(b), Decimal(c), Decimal(d))) == Some((a, c))
  {
    var r4 := "\n";
    var r3 := Decimal(d) + " @@" + r4;
    var r2 := Decimal(c) + "," + r3;
    var r1 := Decimal(b) + " +" + r2;
    var r0 := Decimal(a) + "," + r1;
    var line := "@@ -" + r0;
    assert line[..4] == "@@ -" && line[4..] == r0;
    TakeNumberOf(a, ",", r1);
    TakeNumberOf(b, " +", r2);
    TakeNumberOf(c, ",", r3);
    TakeNumberOf(d, " @@", r4);
  }

  lemma ClassifySrc(name: string)
    requires NoNewline(name)
    ensures Classify("--- " + name + "\n") == SrcFile(name)
  {
    MatchOf("--- ", name);
  }

  lemma ClassifyDst(name: string)
    requires NoNewline(name)
    ensures Classify("+++ " + name + "\n") == DstFile(name)
  {
    MatchOf("+++ ", name);
    assert ("+++ " + name + "\n")[0] == '+';
  }

  lemma HeaderBegins(a: string, b: string, c: string, d: string)
    ensures HeaderText(a, b, c, d) != "" && HeaderText(a, b, c, d)[0] == '@'
  {}

  lemma ClassifyByHeader(line: string)
    requires line != "" && line[0] == '@' && MatchHeader(line).Some?
    ensures Classify(line) == ChunkStart(MatchHeader(line).value.0, MatchHeader(line).value.1)
  {
    assert !StartsWith(line, "--- ") && !StartsWith(line, "+++ ");
  }

  lemma ClassifyHeader(c: Chunk)
    requires c.srcPos >= 0 && c.dstPos >= 0
    ensures Classify(Header(c)) == ChunkStart(c.srcPos, c.dstPos)
  {
    HeaderOf(c.srcPos, SrcLen(c.lines), c.dstPos, DstLen(c.lines));
    HeaderBegins(Format(c.srcPos), Decimal(SrcLen(c.lines)), Format(c.dstPos), Decimal(DstLen(c.lines)));
    ClassifyByHeader(Header(c));
  }

  lemma FirstFour(sign: char, text: string, prefix: string)
    requires |prefix| == 4 && prefix[0] == sign
    ensures StartsWith([sign] + text + "\n", prefix) ==> StartsWith(text + "\n", prefix[1..])
    ensures StartsWith(text, prefix[1..]) ==> StartsWith([sign] + text + "\n", prefix)
  {
    var line := [sign] + text + "\n";
    if StartsWith(line, prefix) {
      assert (text + "\n")[..3] == line[1..4];
      assert line[..4][1..] == prefix[1..];
    }
    if StartsWith(text, prefix[1..]) {
      assert line[..4] == [sign] + text[..3];
    }
  }

  lemma StartsNotWithNewline(text: string, prefix: string)
    requires |prefix| == 3 && prefix[0] != '\n' && prefix[1] != '\n' && prefix[2] != '\n'
    requires StartsWith(text + "\n", prefix)
    ensures StartsWith(text, prefix)
  {
    var s := text + "\n";
    assert s[..3][0] == s[0] && s[..3][1] == s[1] && s[..3][2] == s[2];
    assert s[|text|] == '\n';
    assert text[..3] == s[..3];
  }

  /** A body line is read back as what it was, unless it looks like a file name line. */
  lemma ClassifyBody(line: Line)
    requires NoNewline(line.text)
    ensures CleanLine(line) ==> Classify(WriteLine(line)) == Body(line)
    ensures !CleanLine(line) ==> Classify(WriteLine(line)).SrcFile? || Classify(WriteLine(line)).DstFile?
  {
    var written := WriteLine(line);
    assert written[0] == Sign(line.kind);
    MatchOf([Sign(line.kind)], line.text);
    match line.kind
    case SRC => ClassifyRemoved(line.text);
    case DST => ClassifyAdded(line.text);
    case BOTH =>
      assert !StartsWith(written, "--- ") && !StartsWith(written, "+++ ") && !StartsWith(written, "@@ -");
      assert !StartsWith(written, "-") && !StartsWith(written, "+");
  }

  lemma NoNewlineSuffix(s: string, k: nat)
    requires NoNewline(s) && k <= |s|
    ensures NoNewline(s[k..])
  {}

  lemma ClassifyRemoved(text: string)
    requires NoNewline(text)
    ensures var m := Classify("-" + text + "\n");
      if StartsWith(text, "-- ") then m.SrcFile? else m == Body(Line(SRC, text))
  {
    var written := "-" + text + "\n";
    MatchOf("-", text);
    FirstFour('-', text, "--- ");
    assert "--- "[1..] == "-- ";
    if StartsWith(text, "-- ") {
      NoNewlineSuffix(text, 3);
      assert written[4..] == text[3..] + "\n";
      RestOf(text[3..]);
    } else if StartsWith(written, "--- ") {
      StartsNotWithNewline(text, "-- ");
    }
    assert written[0] == '-';
    assert !StartsWith(written, "+++ ") && !StartsWith(written, "@@ -");
  }

  lemma ClassifyAdded(text: string)
    requires NoNewline(text)
    ensures var m := Classify("+" + text + "\n");
      if StartsWith(text, "++ ") then m.DstFile? else m == Body(Line(DST, text))
  {
    var written := "+" + text + "\n";
    MatchOf("+", text);
    FirstFour('+', text, "+++ ");
    assert "+++ "[1..] == "++ ";
    if StartsWith(text, "++ ") {
      NoNewlineSuffix(text, 3);
      assert written[4..] == text[3..] + "\n";
      RestOf(text[3..]);
    } else if StartsWith(written, "+++ ") {
      StartsNotWithNewline(text, "++ ");
    }
    assert written[0] == '+';
    assert !StartsWith(written, "--- ") && !StartsWith(written, "@@ -") && !StartsWith(written, "-");
  }
}
