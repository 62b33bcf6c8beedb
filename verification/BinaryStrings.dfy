/** Binary strings and Gray codes: int2bin, bin2int, binary_range and gray_encode.
    int2bin goes through hexadecimal digits and a table, binary_range counts with a
    ripple carry on a list of digits, least significant first, and gray_encode is one
    exclusive or. All of them are stated through Bin2Int, the value of a string, and
    Pow2. */
module BinaryStrings {

  /** The result of int2bin, or the exception it raises. */
  datatype Bits = Bits(text: string) | ValueError | KeyError

  function Pow2(n: nat): (p: nat)
    ensures p >= 1
  {
    if n == 0 then 1 else 2 * Pow2(n - 1)
  }

  predicate Binary(s: string) {
    forall i :: 0 <= i < |s| ==> s[i] == '0' || s[i] == '1'
  }

  function Bit(c: char): nat {
    if c == '1' then 1 else 0
  }

  /** bin2int: int(s, 2), most significant bit first. */
  function Bin2Int(s: string): nat {
    if s == "" then 0 else 2 * Bin2Int(s[..|s| - 1]) + Bit(s[|s| - 1])
  }

  // ---------- int2bin, through hexadecimal digits ----------

  function HexDigit(d: nat): char
    requires d < 16
  {
    "0123456789abcdef"[d]
  }

  /** hex(i) without its prefix, in lower case. */
  function Hex(i: nat): string {
    if i < 16 then [HexDigit(i)] else Hex(i / 16) + [HexDigit(i % 16)]
  }

  const HEX2BIN: map<char, string> := map[
    '0' := "0000", '1' := "0001", '2' := "0010", '3' := "0011",
    '4' := "0100", '5' := "0101", '6' := "0110", '7' := "0111",
    '8' := "1000", '9' := "1001", 'a' := "1010", 'b' := "1011",
    'c' := "1100", 'd' := "1101", 'e' := "1110", 'f' := "1111"]

  predicate HexString(s: string) {
    forall i :: 0 <= i < |s| ==> s[i] in HEX2BIN
  }

  function MapDigits(s: string): string
    requires HexString(s)
  {
    if s == "" then "" else MapDigits(s[..|s| - 1]) + HEX2BIN[s[|s| - 1]]
  }

  function Zeros(n: nat): string {
    seq(n, _ => '0')
  }

  /** s[:-n] and s[-n:]: with n == 0 the first is empty and the second is all of s. */
  function AllButLast(s: string, n: nat): string {
    if n == 0 || n >= |s| then "" else s[..|s| - n]
  }

  function LastOf(s: string, n: nat): string {
    if n == 0 || n >= |s| then s else s[|s| - n..]
  }

  lemma {:induction false} HexIsHex(i: nat)
    ensures HexString(Hex(i))
  {
    if i < 16 {
    } else {
      HexIsHex(i / 16);
    }
    assert HexDigit(i % 16) in HEX2BIN;
  }

  /** int2bin. The hexadecimal form of a negative i leaves an x to look up. */
  function Int2Bin(i: int, n: nat): Bits {
    if i < 0 then KeyError
    else
      HexIsHex(i);
      var result := MapDigits(Hex(i));
      if '1' in AllButLast(result, n) then ValueError
      else
        var tail := LastOf(result, n);
        Bits(Zeros(if |tail| < n then n - |tail| else 0) + tail)
  }

  lemma Bin2IntSnoc(s: string, c: char)
    ensures Bin2Int(s + [c]) == 2 * Bin2Int(s) + Bit(c)
  {
    assert (s + [c])[..|s|] == s;
  }

  lemma Shifted(x: nat, p: nat, y: nat, b: nat)
    ensures 2 * (x * p + y) + b == x * (2 * p) + (2 * y + b)
  {}

  lemma {:induction false} Bin2IntConcat(s: string, t: string)
    ensures Bin2Int(s + t) == Bin2Int(s) * Pow2(|t|) + Bin2Int(t)
    decreases |t|
  {
    if t == "" {
      assert s + t == s;
    } else {
      var front := t[..|t| - 1];
      Bin2IntConcat(s, front);
      Bin2IntSnoc(s + front, t[|t| - 1]);
      assert s + t == (s + front) + [t[|t| - 1]];
      Shifted(Bin2Int(s), Pow2(|front|), Bin2Int(front), Bit(t[|t| - 1]));
    }
  }

  lemma {:induction false} Bin2IntBound(s: string)
    ensures Bin2Int(s) < Pow2(|s|)
  {
    if s == "" {
    } else {
      Bin2IntBound(s[..|s| - 1]);
    }
  }

  lemma {:induction false} Bin2IntZero(s: string)
    requires Binary(s)
    ensures Bin2Int(s) == 0 <==> '1' !in s
  {
    if s == "" {
    } else {
      Bin2IntZero(s[..|s| - 1]);
      assert s == s[..|s| - 1] + [s[|s| - 1]];
    }
  }

  lemma FourBits(a: char, b: char, c: char, d: char)
    ensures Bin2Int([a, b, c, d]) == 8 * Bit(a) + 4 * Bit(b) + 2 * Bit(c) + Bit(d)
  {
    assert [a, b, c, d] == [a, b, c] + [d] && [a, b, c] == [a, b] + [c] && [a, b] == [a] + [b];
    Bin2IntSnoc([], a);
    Bin2IntSnoc([a], b);
    Bin2IntSnoc([a, b], c);
    Bin2IntSnoc([a, b, c], d);
    assert [] + [a] == [a];
  }

  lemma FourDigits(d: nat)
    requires d < 16
    ensures HexDigit(d) in HEX2BIN
    ensures var bits := HEX2BIN[HexDigit(d)];
      |bits| == 4 && Binary(bits) && 8 * Bit(bits[0]) + 4 * Bit(bits[1]) + 2 * Bit(bits[2]) + Bit(bits[3]) == d
  {}

  lemma HexDigitBits(d: nat)
    requires d < 16
    ensures HexDigit(d) in HEX2BIN
    ensures var bits := HEX2BIN[HexDigit(d)]; |bits| == 4 && Binary(bits) && Bin2Int(bits) == d
  {
    FourDigits(d);
    BitsValue(HEX2BIN[HexDigit(d)]);
  }

  lemma BitsValue(bits: string)
    requires |bits| == 4
    ensures Bin2Int(bits) == 8 * Bit(bits[0]) + 4 * Bit(bits[1]) + 2 * Bit(bits[2]) + Bit(bits[3])
  {
    assert bits == [bits[0], bits[1], bits[2], bits[3]];
    FourBits(bits[0], bits[1], bits[2], bits[3]);
  }

  lemma MapDigitsSnoc(s: string, c: char)
    requires HexString(s) && c in HEX2BIN
    ensures HexString(s + [c]) && MapDigits(s + [c]) == MapDigits(s) + HEX2BIN[c]
  {
    assert (s + [c])[..|s|] == s;
  }

  lemma AppendFour(s: string, bits: string)
    requires Binary(s) && Binary(bits) && |bits| == 4
    ensures Binary(s + bits) && Bin2Int(s + bits) == 16 * Bin2Int(s) + Bin2Int(bits)
  {
    Bin2IntConcat(s, bits);
    assert Pow2(4) == 2 * Pow2(3) && Pow2(3) == 2 * Pow2(2) && Pow2(2) == 2 * Pow2(1) && Pow2(1) == 2 * Pow2(0);
  }

  lemma MapOneMore(s: string, d: nat)
    requires d < 16 && HexString(s) && Binary(MapDigits(s))
    ensures HexString(s + [HexDigit(d)]) && Binary(MapDigits(s + [HexDigit(d)]))
    ensures Bin2Int(MapDigits(s + [HexDigit(d)])) == 16 * Bin2Int(MapDigits(s)) + d
  {
    HexDigitBits(d);
    MapDigitsSnoc(s, HexDigit(d));
    AppendFour(MapDigits(s), HEX2BIN[HexDigit(d)]);
  }

  lemma {:induction false} MapDigitsValue(i: nat)
    ensures HexString(Hex(i)) && Binary(MapDigits(Hex(i))) && Bin2Int(MapDigits(Hex(i))) == i
  {
    if i < 16 {
      MapOneMore("", i);
      assert Hex(i) == "" + [HexDigit(i)];
    } else {
      MapDigitsValue(i / 16);
      MapOneMore(Hex(i / 16), i % 16);
    }
  }

  lemma {:induction false} ZerosValue(n: nat, s: string)
    ensures Bin2Int(Zeros(n) + s) == Bin2Int(s)
  {
    Bin2IntConcat(Zeros(n), s);
    assert '1' !in Zeros(n);
    Bin2IntZero(Zeros(n));
  }

  /** Cutting a binary string down to n digits loses a 1 exactly when its value
      needs more than n digits. */
  lemma Truncate(s: string, n: nat)
    requires Binary(s) && n > 0
    ensures '1' in AllButLast(s, n) <==> Bin2Int(s) >= Pow2(n)
    ensures '1' !in AllButLast(s, n) ==> Bin2Int(LastOf(s, n)) == Bin2Int(s)
    ensures |LastOf(s, n)| <= n && Binary(LastOf(s, n))
  {
    var head, tail := AllButLast(s, n), LastOf(s, n);
    assert s == head + tail;
    Bin2IntConcat(head, tail);
    Bin2IntZero(head);
    Bin2IntBound(tail);
    if n <= |s| { HeadTooLarge(Bin2Int(head), Pow2(n)); } else { Pow2Grows(|tail|, n); }
  }

  lemma Padded(s: string, n: nat)
    requires Binary(s) && |s| <= n
    ensures var padded := Zeros(n - |s|) + s;
      |padded| == n && Binary(padded) && Bin2Int(padded) == Bin2Int(s)
  {
    ZerosValue(n - |s|, s);
  }

  /** int2bin succeeds exactly when i is not negative and fits into n bits, or n
      is 0, which cuts nothing off; bin2int always undoes it. */
  lemma Int2BinIff(i: int, n: nat)
    ensures var r := Int2Bin(i, n);
      && (r.Bits? <==> i >= 0 && (n == 0 || i < Pow2(n)))
      && (r.KeyError? <==> i < 0)
      && (r.Bits? ==> Binary(r.text) && Bin2Int(r.text) == i && (n > 0 ==> |r.text| == n))
  {
    if i >= 0 {
      MapDigitsValue(i);
      var result := MapDigits(Hex(i));
      if n > 0 {
        Truncate(result, n);
        Padded(LastOf(result, n), n);
      } else {
        assert Zeros(0) + result == result;
      }
    }
  }

  lemma FourMore(k: nat)
    ensures Pow2(k + 4) == 16 * Pow2(k)
  {
    assert Pow2(k + 4) == 2 * Pow2(k + 3) && Pow2(k + 3) == 2 * Pow2(k + 2);
    assert Pow2(k + 2) == 2 * Pow2(k + 1) && Pow2(k + 1) == 2 * Pow2(k);
  }

  lemma FourLonger(s: string, d: nat)
    requires d < 16 && HexString(s)
    ensures HexString(s + [HexDigit(d)]) && |MapDigits(s + [HexDigit(d)])| == |MapDigits(s)| + 4
  {
    HexDigitBits(d);
    MapDigitsSnoc(s, HexDigit(d));
  }

  /** m digits, in groups of four, of which the first group is needed for i. */
  ghost predicate Fourfold(i: nat, m: nat) {
    m % 4 == 0 && m >= 4 && (m > 4 ==> i >= Pow2(m - 4))
  }

  lemma SixteenTimes(i: nat, m: nat)
    requires i >= 16 && Fourfold(i / 16, m)
    ensures Fourfold(i, m + 4)
  {
    FourMore(m - 4);
    assert Pow2(0) == 1;
    assert i >= 16 * (i / 16);
  }

  lemma {:induction false} DigitsNeeded(i: nat)
    ensures HexString(Hex(i)) && Fourfold(i, |MapDigits(Hex(i))|)
  {
    if i < 16 {
      FourLonger("", i);
      assert Hex(i) == "" + [HexDigit(i)];
    } else {
      DigitsNeeded(i / 16);
      FourLonger(Hex(i / 16), i % 16);
      SixteenTimes(i, |MapDigits(Hex(i / 16))|);
    }
  }

  /** With n = 0 the result has four digits per hexadecimal digit, and no more than needed. */
  lemma Int2BinUncut(i: nat)
    ensures Int2Bin(i, 0).Bits? && Fourfold(i, |Int2Bin(i, 0).text|)
  {
    Int2BinIff(i, 0);
    DigitsNeeded(i);
    assert Zeros(0) + MapDigits(Hex(i)) == MapDigits(Hex(i));
  }

  lemma HeadTooLarge(h: nat, p: nat)
    ensures h > 0 ==> h * p >= p
  {}

  lemma {:induction false} Pow2Grows(m: nat, n: nat)
    requires m <= n
    ensures Pow2(m) <= Pow2(n)
  {
    if m >= n {
    } else {
      Pow2Grows(m, n - 1);
    }
  }

  /** n-bit strings are determined by their value. */
  lemma {:induction false} SameValue(s: string, t: string)
    requires Binary(s) && Binary(t) && |s| == |t| && Bin2Int(s) == Bin2Int(t)
    ensures s == t
  {
    if s == "" {
    } else {
      var n := |s| - 1;
      SameValue(s[..n], t[..n]);
      assert s == s[..n] + [s[n]] && t == t[..n] + [t[n]];
    }
  }

  // ---------- binary_range ----------

  ghost function Weight(c: char, i: nat): nat {
    if c == '1' then Pow2(i) else 0
  }

  /** The value of a list of digits whose first digit counts least. */
  ghost function Low(v: seq<char>): nat {
    if v == [] then 0 else Low(v[..|v| - 1]) + Weight(v[|v| - 1], |v| - 1)
  }

  function Reversed(v: seq<char>): string {
    if v == [] then "" else [v[|v| - 1]] + Reversed(v[..|v| - 1])
  }

  lemma OneDigit(c: char, n: nat)
    ensures Bin2Int([c]) * Pow2(n) == Weight(c, n)
  {
    assert [c][..0] == "";
  }

  lemma {:induction false} ReversedValue(v: seq<char>)
    ensures |Reversed(v)| == |v| && Bin2Int(Reversed(v)) == Low(v)
    ensures Binary(v) ==> Binary(Reversed(v))
  {
    if v == [] {
    } else {
      ReversedValue(v[..|v| - 1]);
      Bin2IntConcat([v[|v| - 1]], Reversed(v[..|v| - 1]));
      OneDigit(v[|v| - 1], |v| - 1);
    }
  }

  lemma {:induction false} LowUpdate(v: seq<char>, i: nat, c: char)
    requires i < |v|
    ensures Low(v[i := c]) + Weight(v[i], i) == Low(v) + Weight(c, i)
  {
    var n := |v| - 1;
    if i < n {
      assert v[i := c][..n] == v[..n][i := c];
      LowUpdate(v[..n], i, c);
    } else {
      assert v[i := c][..n] == v[..n];
    }
  }

  lemma {:induction false} LowOfZeros(n: nat)
    ensures Low(Zeros(n)) == 0
  {
    if n == 0 {
    } else {
      assert Zeros(n)[..n - 1] == Zeros(n - 1);
      LowOfZeros(n - 1);
    }
  }

  lemma {:induction false} LowBound(v: seq<char>)
    ensures Low(v) < Pow2(|v|)
  {
    if v == [] {
    } else {
      LowBound(v[..|v| - 1]);
    }
  }

  lemma CarryStep(v: seq<char>, i: nat)
    requires Binary(v) && i < |v|
    ensures v[i] == '0' ==> Low(v[i := '1']) == Low(v) + Pow2(i)
    ensures v[i] == '1' ==> Low(v[i := '0']) + Pow2(i + 1) == Low(v) + Pow2(i)
  {
    LowUpdate(v, i, if v[i] == '0' then '1' else '0');
  }

  ghost function Carry(toggle: int, i: nat): nat {
    if toggle == 1 then Pow2(i) else 0
  }

  /** One pass of the ripple: adds 1 to the digits in v; toggle[bits] is the overflow. */
  method Increment(v: array<char>, bits: nat) returns (toggle: seq<int>)
    requires v.Length == bits && Binary(v[..])
    modifies v
    ensures Binary(v[..]) && |toggle| == bits + 1
    ensures Low(v[..]) + Carry(toggle[bits], bits) == Low(old(v[..])) + 1
  {
    toggle := [1] + seq(bits, _ => 0);
    var i := 0;
    while i < bits && toggle[i] == 1
      invariant i <= bits && |toggle| == bits + 1 && Binary(v[..])
      invariant toggle[i] in {0, 1} && forall j :: i < j <= bits ==> toggle[j] == 0
      invariant Low(v[..]) + Carry(toggle[i], i) == Low(old(v[..])) + 1
    {
      ghost var before := v[..];
      CarryStep(before, i);
      if v[i] == '0' {
        v[i] := '1';
        toggle := toggle[i + 1 := 0];
      } else {
        v[i] := '0';
        toggle := toggle[i + 1 := 1];
      }
      assert v[..] == before[i := v[i]];
      i := i + 1;
    }
  }

  /** l holds the strings from 0 on, in order. */
  ghost predicate Counted(l: seq<string>, bits: nat)
    requires bits > 0
  {
    |l| <= Pow2(bits) && forall k :: 0 <= k < |l| ==> Bits(l[k]) == Int2Bin(k, bits)
  }

  lemma CountedSnoc(l: seq<string>, v: seq<char>, bits: nat)
    requires bits > 0 && Counted(l, bits) && |v| == bits && Binary(v) && Low(v) == |l|
    ensures Counted(l + [Reversed(v)], bits) && |l| < Pow2(bits)
  {
    NextString(v, bits);
    LowBound(v);
    OneMoreCounted(l, Reversed(v), bits);
  }

  lemma OneMoreCounted(l: seq<string>, s: string, bits: nat)
    requires bits > 0 && Counted(l, bits) && |l| < Pow2(bits) && Bits(s) == Int2Bin(|l|, bits)
    ensures Counted(l + [s], bits)
  {}

  lemma OverflowAtTheEnd(before: nat, after: seq<char>, carry: int, bits: nat)
    requires |after| == bits && before < Pow2(bits) && Low(after) + Carry(carry, bits) == before + 1
    ensures carry == 1 ==> before + 1 == Pow2(bits)
    ensures carry != 1 ==> Low(after) == before + 1
  {
    LowBound(after);
  }

  /** binary_range: 2^bits strings, and the k-th is k in binary. */
  method BinaryRange(bits: nat) returns (l: seq<string>)
    ensures bits == 0 ==> l == []
    ensures bits > 0 ==> |l| == Pow2(bits) && forall k :: 0 <= k < |l| ==> Bits(l[k]) == Int2Bin(k, bits)
  {
    l := [];
    var v := new char[bits](_ => '0');
    var toggle := [1] + seq(bits, _ => 0);
    assert v[..] == Zeros(bits);
    LowOfZeros(bits);
    while toggle[bits] != 1
      invariant |toggle| == bits + 1 && Binary(v[..])
      invariant bits == 0 ==> toggle[bits] == 1 && l == []
      invariant bits > 0 ==> Counted(l, bits) && if toggle[bits] == 1 then |l| == Pow2(bits) else Low(v[..]) == |l|
      decreases Pow2(bits) - |l|
    {
      CountedSnoc(l, v[..], bits);
      l := l + [Reversed(v[..])];
      ghost var before := Low(v[..]);
      toggle := Increment(v, bits);
      OverflowAtTheEnd(before, v[..], toggle[bits], bits);
    }
  }

  lemma NextString(v: seq<char>, bits: nat)
    requires bits > 0 && |v| == bits && Binary(v)
    ensures Bits(Reversed(v)) == Int2Bin(Low(v), bits)
  {
    ReversedValue(v);
    LowBound(v);
    Int2BinIff(Low(v), bits);
    SameValue(Reversed(v), Int2Bin(Low(v), bits).text);
  }

  // ---------- Gray codes ----------

  /** i ^ j */
  function Xor(i: nat, j: nat): nat
    decreases i + j
  {
    if i == 0 && j == 0 then 0
    else 2 * Xor(i / 2, j / 2) + (if i % 2 == j % 2 then 0 else 1)
  }

  /** i ^ (i >> 1) */
  function GrayEncode(i: nat): nat {
    Xor(i, i / 2)
  }

  /** The code is that of i / 2, followed by whether the last two bits of i differ. */
  lemma GrayStep(i: nat)
    ensures GrayEncode(i) == 2 * GrayEncode(i / 2) + (if i % 2 == i / 2 % 2 then 0 else 1)
  {}

  lemma {:induction false} GrayInjective(i: nat, j: nat)
    requires GrayEncode(i) == GrayEncode(j)
    ensures i == j
    decreases i + j
  {
    GrayStep(i);
    GrayStep(j);
    if i == 0 && j == 0 {
    } else {
      GrayInjective(i / 2, j / 2);
    }
  }

  lemma {:induction false} GrayInRange(i: nat, n: nat)
    requires i < Pow2(n)
    ensures GrayEncode(i) < Pow2(n)
    decreases n
  {
    GrayStep(i);
    if n == 0 {
    } else {
      GrayInRange(i / 2, n - 1);
    }
  }

  /** Every code of n bits is taken, so that the codes permute [0, 2^n). */
  lemma {:induction false} GraySurjective(g: nat, n: nat) returns (i: nat)
    requires g < Pow2(n)
    ensures i < Pow2(n) && GrayEncode(i) == g
    decreases n
  {
    if n == 0 {
      i := 0;
    } else {
      var m := GraySurjective(g / 2, n - 1);
      i := 2 * m + (if g % 2 == 0 then m % 2 else 1 - m % 2);
      GrayStep(i);
    }
  }

  lemma XorDoubles(a: nat, b: nat, x: nat, y: nat)
    requires x < 2 && y < 2
    ensures Xor(2 * a + x, 2 * b + y) == 2 * Xor(a, b) + (if x == y then 0 else 1)
  {
    assert (2 * a + x) / 2 == a && (2 * b + y) / 2 == b;
  }

  lemma {:induction false} XorSelf(a: nat)
    ensures Xor(a, a) == 0
  {
    if a == 0 {
    } else {
      XorSelf(a / 2);
    }
  }

  ghost function GrayBit(i: nat): nat {
    if i % 2 == i / 2 % 2 then 0 else 1
  }

  lemma GrayPair(i: nat, j: nat)
    ensures Xor(GrayEncode(i), GrayEncode(j))
      == 2 * Xor(GrayEncode(i / 2), GrayEncode(j / 2)) + (if GrayBit(i) == GrayBit(j) then 0 else 1)
  {
    GrayStep(i);
    GrayStep(j);
    XorDoubles(GrayEncode(i / 2), GrayEncode(j / 2), GrayBit(i), GrayBit(j));
  }

  lemma NextBit(i: nat)
    ensures i % 2 == 0 ==> (i + 1) / 2 == i / 2 && GrayBit(i) != GrayBit(i + 1)
    ensures i % 2 == 1 ==> (i + 1) / 2 == i / 2 + 1 && GrayBit(i) == GrayBit(i + 1)
  {}

  /** The codes of i and i + 1 differ in one bit. */
  lemma {:induction false} GrayNeighbours(i: nat) returns (k: nat)
    ensures Xor(GrayEncode(i), GrayEncode(i + 1)) == Pow2(k)
    decreases i
  {
    GrayPair(i, i + 1);
    NextBit(i);
    if i % 2 == 0 {
      XorSelf(GrayEncode(i / 2));
      k := 0;
    } else {
      var j := GrayNeighbours(i / 2);
      k := j + 1;
    }
  }
}
