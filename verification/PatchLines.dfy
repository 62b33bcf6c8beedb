/** Unified-diff lines as text: what the numbers of a written header say about the lines
    that follow it, and exactly which lines are read as names, headers and bodies. Nothing
    here goes through the functions that write or read; they are proved to agree. The
    counts are over the text, by the first character of each line. */
module PatchLines {
  import opened Common
  import opened PatchText

  // ---------- numbers ----------

  /** s is n as '%d' writes it. */
  ghost predicate Numeral(s: string, n: int) {
    if n < 0 then s != "" && s[0] == '-' && Numeral(s[1..], -n)
    else s != "" && AllDigits(s) && Number(s) == n && (|s| > 1 ==> s[0] != '0')
  }

  lemma {:induction false} DecimalIsNumeral(n: nat)
    ensures Numeral(Decimal(n), n) && (n > 0 ==> Decimal(n)[0] != '0')
  {
    DecimalDigits(n);
    if n >= 10 { DecimalIsNumeral(n / 10); }
  }

  lemma FormatIsNumeral(i: int)
    ensures Numeral(Format(i), i)
  {
    DecimalIsNumeral(if i < 0 then -i else i);
  }

  /** The numerals of a header end where their digits end. */
  lemma SameNumeral(s: string, m: int, rest: string, s': string, m': int, rest': string)
    requires Numeral(s, m) && Numeral(s', m') && s + rest == s' + rest'
    requires rest != "" && rest' != "" && !IsDigit(rest[0]) && !IsDigit(rest'[0])
    ensures s == s' && m == m' && rest == rest'
  {
    assert (s + rest)[0] == s[0] && (s' + rest')[0] == s'[0];
    if m < 0 {
      assert (s + rest)[1..] == s[1..] + rest && (s' + rest')[1..] == s'[1..] + rest';
      SameNatural(s[1..], -m, rest, s'[1..], -m', rest');
    } else {
      SameNatural(s, m, rest, s', m', rest');
    }
  }

  lemma SameNatural(s: string, m: int, rest: string, s': string, m': int, rest': string)
    requires m >= 0 && m' >= 0 && Numeral(s, m) && Numeral(s', m') && s + rest == s' + rest'
    requires rest != "" && rest' != "" && !IsDigit(rest[0]) && !IsDigit(rest'[0])
    ensures s == s' && m == m' && rest == rest'
  {
    DigitsOf(s, rest);
    DigitsOf(s', rest');
    assert (s + rest)[..|s|] == s && (s' + rest')[..|s'|] == s';
    assert (s + rest)[|s|..] == rest && (s' + rest')[|s'|..] == rest';
  }

  // ---------- the header of a written chunk ----------

  /** A header line with these four numbers. */
  ghost predicate HeaderSays(line: string, a: int, b: int, c: int, d: int) {
    exists sa, sb, sc, sd ::
      && Numeral(sa, a) && Numeral(sb, b) && Numeral(sc, c) && Numeral(sd, d)
      && line == HeaderLine(sa, sb, sc, sd)
  }

  ghost function HeaderLine(a: string, b: string, c: string, d: string): string {
    "@@ -" + a + "," + b + " +" + c + "," + d + " @@\n"
  }

  lemma HeaderLineIs(a: string, b: string, c: string, d: string)
    ensures HeaderText(a, b, c, d) == HeaderLine(a, b, c, d)
    ensures HeaderLine(a, b, c, d) == "@@ -" + (a + ("," + (b + (" +" + (c + ("," + (d + " @@\n")))))))
  {
    assert " @@" + "\n" == " @@\n";
  }

  /** A line says four numbers at most. */
  lemma HeaderSaysOnce(line: string, a: int, b: int, c: int, d: int, a': int, b': int, c': int, d': int)
    requires HeaderSays(line, a, b, c, d) && HeaderSays(line, a', b', c', d')
    ensures (a, b, c, d) == (a', b', c', d')
  {
    var sa, sb, sc, sd :| Numeral(sa, a) && Numeral(sb, b) && Numeral(sc, c) && Numeral(sd, d)
      && line == HeaderLine(sa, sb, sc, sd);
    var ta, tb, tc, td :| Numeral(ta, a') && Numeral(tb, b') && Numeral(tc, c') && Numeral(td, d')
      && line == HeaderLine(ta, tb, tc, td);
    HeaderLineIs(sa, sb, sc, sd);
    HeaderLineIs(ta, tb, tc, td);
    var r4 := " @@\n";
    var r3, q3 := "," + (sd + r4), "," + (td + r4);
    var r2, q2 := " +" + (sc + r3), " +" + (tc + q3);
    var r1, q1 := "," + (sb + r2), "," + (tb + q2);
    SamePrefix("@@ -", sa + r1, ta + q1);
    SameNumeral(sa, a, r1, ta, a', q1);
    SamePrefix(",", sb + r2, tb + q2);
    SameNumeral(sb, b, r2, tb, b', q2);
    SamePrefix(" +", sc + r3, tc + q3);
    SameNumeral(sc, c, r3, tc, c', q3);
    SamePrefix(",", sd + r4, td + r4);
    SameNumeral(sd, d, r4, td, d', r4);
  }

  lemma SamePrefix(p: string, s: string, t: string)
    requires p + s == p + t
    ensures s == t
  {
    assert (p + s)[|p|..] == s && (p + t)[|p|..] == t;
  }

  /** Lines of the old text: removed or kept. Of the new text: added or kept. */
  ghost predicate OfSource(line: string) {
    line != "" && (line[0] == '-' || line[0] == ' ')
  }

  ghost predicate OfDestination(line: string) {
    line != "" && (line[0] == '+' || line[0] == ' ')
  }

  /** A header with the positions a and c, and after it lines of which it gives the number
      that belong to the old text and the number that belong to the new one. */
  ghost predicate CountsRight(written: seq<string>, a: int, c: int) {
    && written != []
    && HeaderSays(written[0], a, Count(written[1..], OfSource), c, Count(written[1..], OfDestination))
  }

  lemma {:induction false} LinesCounted(lines: seq<Line>)
    ensures Count(WriteLines(lines), OfSource) == SrcLen(lines)
    ensures Count(WriteLines(lines), OfDestination) == DstLen(lines)
  {
    if lines == [] {
    } else {
      var front, line := lines[..|lines| - 1], lines[|lines| - 1];
      LinesCounted(front);
      CountSnoc(WriteLines(front), WriteLine(line), OfSource);
      CountSnoc(WriteLines(front), WriteLine(line), OfDestination);
      assert WriteLine(line)[0] == Sign(line.kind);
    }
  }

  lemma HeaderIsSaid(c: Chunk)
    ensures HeaderSays(Header(c), c.srcPos, SrcLen(c.lines), c.dstPos, DstLen(c.lines))
  {
    var a, b := Format(c.srcPos), Decimal(SrcLen(c.lines));
    var d, e := Format(c.dstPos), Decimal(DstLen(c.lines));
    FormatIsNumeral(c.srcPos);
    DecimalIsNumeral(SrcLen(c.lines));
    FormatIsNumeral(c.dstPos);
    DecimalIsNumeral(DstLen(c.lines));
    HeaderLineIs(a, b, d, e);
    assert Header(c) == HeaderLine(a, b, d, e);
  }

  /** What is written for a chunk has the right counts in its header. */
  lemma ChunkCountsRight(c: Chunk)
    ensures CountsRight(WriteChunk(c), c.srcPos, c.dstPos)
  {
    HeaderIsSaid(c);
    LinesCounted(c.lines);
    assert WriteChunk(c)[1..] == WriteLines(c.lines);
  }

  lemma {:induction false} ChunkWithin(chunks: seq<Chunk>, j: nat) returns (before: seq<string>, after: seq<string>)
    requires j < |chunks|
    ensures WriteChunks(chunks) == before + WriteChunk(chunks[j]) + after
    decreases |chunks|
  {
    var n := |chunks| - 1;
    if j == n {
      before, after := WriteChunks(chunks[..n]), [];
    } else {
      before, after := ChunkWithin(chunks[..n], j);
      after := after + WriteChunk(chunks[n]);
    }
  }

  lemma {:induction false} PatchWithin(ps: seq<Patch>, i: nat) returns (before: seq<string>, after: seq<string>)
    requires i < |ps|
    ensures WriteAll(ps) == before + WritePatch(ps[i]) + after
    decreases |ps|
  {
    var n := |ps| - 1;
    if i == n {
      before, after := WriteAll(ps[..n]), [];
    } else {
      before, after := PatchWithin(ps[..n], i);
      after := after + WritePatch(ps[n]);
    }
  }

  /** Every chunk of every patch stands in the whole text, its lines right after a header
      that counts them. */
  lemma WrittenCountsRight(ps: seq<Patch>, i: nat, j: nat)
    returns (before: seq<string>, written: seq<string>, after: seq<string>)
    requires i < |ps| && j < |ps[i].chunks|
    ensures WriteAll(ps) == before + written + after && |written| == 1 + |ps[i].chunks[j].lines|
    ensures CountsRight(written, ps[i].chunks[j].srcPos, ps[i].chunks[j].dstPos)
  {
    var c, names := ps[i].chunks[j], ["--- " + ps[i].src + "\n", "+++ " + ps[i].dst + "\n"];
    var b, a := PatchWithin(ps, i);
    before, after := ChunkWithin(ps[i].chunks, j);
    written := WriteChunk(c);
    InTheMiddle(b, names, before, written, after, a);
    before, after := b + names + before, after + a;
    if c.lines != [] { LineWritten(c.lines, 0); }
    ChunkCountsRight(c);
  }

  lemma InTheMiddle<T>(b: seq<T>, names: seq<T>, before: seq<T>, written: seq<T>, after: seq<T>, a: seq<T>)
    ensures b + (names + (before + written + after)) + a == (b + names + before) + written + (after + a)
  {}

  lemma {:induction false} WriteLinesAt(lines: seq<Line>, i: nat)
    requires i < |lines|
    ensures |WriteLines(lines)| == |lines| && WriteLines(lines)[i] == WriteLine(lines[i])
    decreases |lines|
  {
    var n := |lines| - 1;
    if n == 0 {
    } else {
      WriteLinesAt(lines[..n], if i < n then i else 0);
    }
  }

  /** Each line of a chunk is written as its sign and its text. */
  lemma LineWritten(lines: seq<Line>, i: nat)
    requires i < |lines|
    ensures |WriteLines(lines)| == |lines|
    ensures WriteLines(lines)[i] == match lines[i].kind
      case SRC => "-" + lines[i].text + "\n"
      case DST => "+" + lines[i].text + "\n"
      case BOTH => " " + lines[i].text + "\n"
  {
    WriteLinesAt(lines, i);
  }

  // ---------- which lines are read as what ----------

  /** line is prefix and text, and possibly a newline. */
  ghost predicate Spells(line: string, prefix: string, text: string) {
    NoNewline(text) && (line == prefix + text || line == prefix + text + "\n")
  }

  lemma MatchIff(prefix: string, line: string, text: string)
    ensures Match(prefix, line) == Some(text) <==> Spells(line, prefix, text)
  {
    SpellsStarts(line, prefix, text);
    if StartsWith(line, prefix) {
      var s := line[|prefix|..];
      assert line == prefix + s;
      RestIff(s, text);
      if line == prefix + text { SamePrefix(prefix, s, text); }
      if line == prefix + text + "\n" {
        assert line == prefix + (text + "\n");
        SamePrefix(prefix, s, text + "\n");
      }
      if s == text + "\n" { assert line == prefix + text + "\n"; }
    }
  }

  lemma SpellsStarts(line: string, prefix: string, text: string)
    ensures Spells(line, prefix, text) ==> StartsWith(line, prefix)
  {
    assert (prefix + text)[..|prefix|] == prefix && (prefix + text + "\n")[..|prefix|] == prefix;
  }

  lemma RestIff(s: string, text: string)
    ensures Rest(s) == Some(text) <==> NoNewline(text) && (s == text || s == text + "\n")
  {
    if NoNewline(text) && s == text + "\n" { RestOf(text); }
    if !NoNewline(s) { assert s == s[..|s| - 1] + [s[|s| - 1]]; }
  }

  /** Nonempty digits with this value. */
  ghost predicate DigitsFor(s: string, n: nat) {
    s != "" && AllDigits(s) && Number(s) == n
  }

  /** A chunk header: four numbers, of which the positions are a and c; anything may follow. */
  ghost predicate StartsChunk(line: string, a: nat, c: nat) {
    exists sa, sb, sc, sd, b, d, rest ::
      && DigitsFor(sa, a) && DigitsFor(sb, b) && DigitsFor(sc, c) && DigitsFor(sd, d)
      && line == ChunkStartLine(sa, sb, sc, sd, rest)
  }

  ghost function ChunkStartLine(a: string, b: string, c: string, d: string, rest: string): string {
    "@@ -" + (a + ("," + (b + (" +" + (c + ("," + (d + (" @@" + rest))))))))
  }

  lemma TakeNumberIs(s: string, n: nat, literal: string, rest: string)
    requires DigitsFor(s, n) && literal != "" && !IsDigit(literal[0])
    ensures TakeNumber(s + (literal + rest), literal) == Some((n, rest))
  {
    var text := s + (literal + rest);
    DigitsOf(s, literal + rest);
    assert text[..|s|] == s && text[|s|..] == literal + rest && text[|s| + |literal|..] == rest;
  }

  lemma TakenNumber(s: string, literal: string) returns (digits: string)
    requires TakeNumber(s, literal).Some?
    ensures DigitsFor(digits, TakeNumber(s, literal).value.0)
    ensures s == digits + (literal + TakeNumber(s, literal).value.1)
  {
    var n := Digits(s);
    DigitsAreDigits(s);
    digits := s[..n];
    assert s == digits + s[n..];
    assert s[n..] == literal + s[n + |literal|..];
  }

  lemma HeaderRead(line: string, sa: string, a: nat, sb: string, b: nat, sc: string, c: nat, sd: string, d: nat,
                   rest: string)
    requires DigitsFor(sa, a) && DigitsFor(sb, b) && DigitsFor(sc, c) && DigitsFor(sd, d)
    requires line == ChunkStartLine(sa, sb, sc, sd, rest)
    ensures MatchHeader(line) == Some((a, c))
  {
    var r3 := sd + (" @@" + rest);
    var r2 := sc + ("," + r3);
    var r1 := sb + (" +" + r2);
    var r0 := sa + ("," + r1);
    assert line == "@@ -" + r0 && line[..4] == "@@ -" && line[4..] == r0;
    TakeNumberIs(sa, a, ",", r1);
    TakeNumberIs(sb, b, " +", r2);
    TakeNumberIs(sc, c, ",", r3);
    TakeNumberIs(sd, d, " @@", rest);
  }

  /** Two numbers and the separators after them. */
  lemma TakenPair(s: string, between: string, after: string) returns (s1: string, s2: string)
    requires TakeNumber(s, between).Some? && TakeNumber(TakeNumber(s, between).value.1, after).Some?
    ensures var a := TakeNumber(s, between).value;
      var b := TakeNumber(a.1, after).value;
      DigitsFor(s1, a.0) && DigitsFor(s2, b.0) && s == s1 + (between + (s2 + (after + b.1)))
  {
    s1 := TakenNumber(s, between);
    s2 := TakenNumber(TakeNumber(s, between).value.1, after);
  }

  lemma HeaderWasThere(line: string)
    requires MatchHeader(line).Some?
    ensures StartsChunk(line, MatchHeader(line).value.0, MatchHeader(line).value.1)
  {
    var a := TakeNumber(line[4..], ",").value;
    var b := TakeNumber(a.1, " +").value;
    var c := TakeNumber(b.1, ",").value;
    var d := TakeNumber(c.1, " @@").value;
    var sa, sb := TakenPair(line[4..], ",", " +");
    var sc, sd := TakenPair(b.1, ",", " @@");
    HeaderFound(line, a.0, b.0, c.0, d.0, sa, sb, sc, sd, d.1);
  }

  lemma HeaderFound(line: string, a: nat, b: nat, c: nat, d: nat, sa: string, sb: string, sc: string, sd: string,
                    rest: string)
    requires DigitsFor(sa, a) && DigitsFor(sb, b) && DigitsFor(sc, c) && DigitsFor(sd, d)
    requires StartsWith(line, "@@ -")
    requires line[4..] == sa + ("," + (sb + (" +" + (sc + ("," + (sd + (" @@" + rest)))))))
    ensures StartsChunk(line, a, c)
  {
    assert line == "@@ -" + line[4..];
    assert line == ChunkStartLine(sa, sb, sc, sd, rest);
  }

  lemma HeaderIff(line: string, a: nat, c: nat)
    ensures MatchHeader(line) == Some((a, c)) <==> StartsChunk(line, a, c)
  {
    if MatchHeader(line) == Some((a, c)) { HeaderWasThere(line); }
    if StartsChunk(line, a, c) {
      var sa, sb, sc, sd, b, d, rest :| DigitsFor(sa, a) && DigitsFor(sb, b) && DigitsFor(sc, c) && DigitsFor(sd, d)
        && line == ChunkStartLine(sa, sb, sc, sd, rest);
      HeaderRead(line, sa, a, sb, b, sc, c, sd, d, rest);
    }
  }

  lemma MatchBegins(prefix: string, line: string)
    requires prefix != "" && Match(prefix, line).Some?
    ensures line != "" && line[0] == prefix[0]
  {
    assert line[..|prefix|][0] == prefix[0];
  }

  lemma HeaderMatchBegins(line: string)
    requires MatchHeader(line).Some?
    ensures line != "" && line[0] == '@'
  {
    assert line[..4][0] == '@';
  }

  ghost predicate IsName(line: string, prefix: string) {
    exists name :: Spells(line, prefix, name)
  }

  lemma IsNameIff(line: string, prefix: string)
    ensures IsName(line, prefix) <==> Match(prefix, line).Some?
  {
    if Match(prefix, line).Some? { MatchIff(prefix, line, Match(prefix, line).value); }
    if name :| Spells(line, prefix, name) { MatchIff(prefix, line, name); }
  }

  /** What each line means, by its text; a line that means nothing of this is bad. */
  ghost predicate MeansText(line: string, m: Meaning) {
    match m
    case SrcFile(name) => Spells(line, "--- ", name)
    case DstFile(name) => Spells(line, "+++ ", name)
    case ChunkStart(a, c) => StartsChunk(line, a, c)
    case Body(Line(SRC, text)) => Spells(line, "-", text) && !IsName(line, "--- ")
    case Body(Line(DST, text)) => Spells(line, "+", text) && !IsName(line, "+++ ")
    case Body(Line(BOTH, text)) => Spells(line, " ", text)
    case Bad => false
  }

  /** A line is read as what its text says. */
  lemma ClassifyIff(line: string, m: Meaning)
    requires m != Bad
    ensures Classify(line) == m <==> MeansText(line, m)
  {
    FirstCharacters(line);
    IsNameIff(line, "--- ");
    IsNameIff(line, "+++ ");
    match m
    case SrcFile(name) => MatchIff("--- ", line, name);
    case DstFile(name) => MatchIff("+++ ", line, name);
    case ChunkStart(a, c) => HeaderIff(line, a, c);
    case Body(Line(SRC, text)) => MatchIff("-", line, text);
    case Body(Line(DST, text)) => MatchIff("+", line, text);
    case Body(Line(BOTH, text)) => MatchIff(" ", line, text);
  }

  /** The patterns exclude each other by the first character, but for file names. */
  lemma FirstCharacters(line: string)
    ensures Match("--- ", line).Some? ==> line != "" && line[0] == '-'
    ensures Match("+++ ", line).Some? ==> line != "" && line[0] == '+'
    ensures MatchHeader(line).Some? ==> line != "" && line[0] == '@'
    ensures Match("-", line).Some? ==> line != "" && line[0] == '-'
    ensures Match("+", line).Some? ==> line != "" && line[0] == '+'
    ensures Match(" ", line).Some? ==> line != "" && line[0] == ' '
  {
    if Match("--- ", line).Some? { MatchBegins("--- ", line); }
    if Match("+++ ", line).Some? { MatchBegins("+++ ", line); }
    if MatchHeader(line).Some? { HeaderMatchBegins(line); }
    if Match("-", line).Some? { MatchBegins("-", line); }
    if Match("+", line).Some? { MatchBegins("+", line); }
    if Match(" ", line).Some? { MatchBegins(" ", line); }
  }

  /** The line is bad exactly when its text says nothing. */
  lemma BadIff(line: string)
    ensures Classify(line) == Bad <==> forall m :: !MeansText(line, m)
  {
    forall m | m != Bad ensures Classify(line) == m <==> MeansText(line, m) { ClassifyIff(line, m); }
    if Classify(line) != Bad { assert MeansText(line, Classify(line)); }
  }
}
