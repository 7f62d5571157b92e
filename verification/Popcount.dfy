/**
 Counting set bits (redisPopcount and BITCOUNT in bitops.c): bytes through a
 table, 28 bytes at a time through four counters packed into one word.
 */
module Popcount {
  import opened Bits

  function One(b: bool): nat { if b then 1 else 0 }

  /** The number of set bits of a byte; what the bitsinbyte table holds. */
  function ByteOnes(b: bv8): nat {
    One(ByteBit(b, 0)) + One(ByteBit(b, 1)) + One(ByteBit(b, 2)) + One(ByteBit(b, 3))
    + One(ByteBit(b, 4)) + One(ByteBit(b, 5)) + One(ByteBit(b, 6)) + One(ByteBit(b, 7))
  }

  function Ones(s: seq<bv8>): nat
    decreases |s|
  {
    if s == [] then 0 else Ones(s[..|s| - 1]) + ByteOnes(s[|s| - 1])
  }

  lemma {:induction false} OnesConcat(a: seq<bv8>, b: seq<bv8>)
    ensures Ones(a + b) == Ones(a) + Ones(b)
    decreases |b|
  {
    hide ByteOnes;
    if b == [] {
      assert a + b == a;
    } else {
      var i := |b| - 1;
      assert (a + b)[..|a| + i] == a + b[..i];
      OnesConcat(a, b[..i]);
    }
  }

  // ----- words as numbers -----

  const WORD := 0x1_0000_0000

  /** The bitwise and of two numbers. */
  function And(x: nat, y: nat): nat
    decreases x
  {
    if x == 0 then 0 else One(x % 2 == 1 && y % 2 == 1) + 2 * And(x / 2, y / 2)
  }

  /** A byte from its bits, the least significant first. */
  function Byte(c0: bool, c1: bool, c2: bool, c3: bool, c4: bool, c5: bool, c6: bool, c7: bool): nat {
    One(c0) + 2 * One(c1) + 4 * One(c2) + 8 * One(c3) + 16 * One(c4) + 32 * One(c5) + 64 * One(c6) + 128 * One(c7)
  }

  lemma AndPush(x: nat, y: nat, c: bool, d: bool)
    ensures And(One(c) + 2 * x, One(d) + 2 * y) == One(c && d) + 2 * And(x, y)
  {
    var u, v := One(c) + 2 * x, One(d) + 2 * y;
    assert u / 2 == x && v / 2 == y && (u % 2 == 1) == c && (v % 2 == 1) == d;
    AndStep(u, v);
    hide And;
  }

  lemma AndStep(x: nat, y: nat)
    ensures And(x, y) == One(x % 2 == 1 && y % 2 == 1) + 2 * And(x / 2, y / 2)
  {
  }

  lemma AndNibble(x: nat, y: nat, c0: bool, c1: bool, c2: bool, c3: bool, d0: bool, d1: bool, d2: bool, d3: bool)
    ensures And(One(c0) + 2 * One(c1) + 4 * One(c2) + 8 * One(c3) + 16 * x,
                One(d0) + 2 * One(d1) + 4 * One(d2) + 8 * One(d3) + 16 * y)
         == One(c0 && d0) + 2 * One(c1 && d1) + 4 * One(c2 && d2) + 8 * One(c3 && d3) + 16 * And(x, y)
  {
    hide And, One;
    var x3, y3 := One(c3) + 2 * x, One(d3) + 2 * y;
    var x2, y2 := One(c2) + 2 * x3, One(d2) + 2 * y3;
    var x1, y1 := One(c1) + 2 * x2, One(d1) + 2 * y2;
    AndPush(x, y, c3, d3);
    AndPush(x3, y3, c2, d2);
    AndPush(x2, y2, c1, d1);
    AndPush(x1, y1, c0, d0);
  }

  /** Bytes are combined bit by bit, and apart from what lies above them. */
  lemma AndByte(x: nat, y: nat,
                c0: bool, c1: bool, c2: bool, c3: bool, c4: bool, c5: bool, c6: bool, c7: bool,
                d0: bool, d1: bool, d2: bool, d3: bool, d4: bool, d5: bool, d6: bool, d7: bool)
    ensures And(256 * x + Byte(c0, c1, c2, c3, c4, c5, c6, c7), 256 * y + Byte(d0, d1, d2, d3, d4, d5, d6, d7))
         == 256 * And(x, y) + Byte(c0 && d0, c1 && d1, c2 && d2, c3 && d3, c4 && d4, c5 && d5, c6 && d6, c7 && d7)
  {
    hide And, One;
    AndNibble(x, y, c4, c5, c6, c7, d4, d5, d6, d7);
    var u := One(c4) + 2 * One(c5) + 4 * One(c6) + 8 * One(c7) + 16 * x;
    var v := One(d4) + 2 * One(d5) + 4 * One(d6) + 8 * One(d7) + 16 * y;
    AndNibble(u, v, c0, c1, c2, c3, d0, d1, d2, d3);
  }

  lemma And55(x: nat, m: nat, c0: bool, c1: bool, c2: bool, c3: bool, c4: bool, c5: bool, c6: bool, c7: bool)
    ensures And(256 * x + Byte(c0, c1, c2, c3, c4, c5, c6, c7), 256 * m + 0x55)
         == 256 * And(x, m) + One(c0) + 4 * One(c2) + 16 * One(c4) + 64 * One(c6)
  {
    hide And, One;
    Numerals();
    AndByte(x, m, c0, c1, c2, c3, c4, c5, c6, c7, true, false, true, false, true, false, true, false);
  }

  /** With 0x33 every other pair of bits stays. */
  lemma And33(x: nat, m: nat, a0: nat, a1: nat, a2: nat, a3: nat)
    requires a0 < 4 && a1 < 4 && a2 < 4 && a3 < 4
    ensures And(256 * x + a0 + 4 * a1 + 16 * a2 + 64 * a3, 256 * m + 0x33) == 256 * And(x, m) + a0 + 16 * a2
  {
    hide And, One;
    var p0, q0 := PairBits(a0);
    var p1, q1 := PairBits(a1);
    var p2, q2 := PairBits(a2);
    var p3, q3 := PairBits(a3);
    Numerals();
    AndByte(x, m, p0, q0, p1, q1, p2, q2, p3, q3, true, true, false, false, true, true, false, false);
  }

  lemma PairBits(a: nat) returns (p: bool, q: bool)
    requires a < 4
    ensures a == One(p) + 2 * One(q)
  {
    p, q := a % 2 == 1, a >= 2;
  }

  lemma HalfOf(x: nat, c: bool)
    ensures (2 * x + One(c)) / 2 == x
  {
  }

  lemma Halve(x: nat)
    ensures x == 2 * (x / 2) + One(x % 2 == 1)
  {
  }

  lemma Numerals()
    ensures One(true) == 1 && One(false) == 0
  {
  }

  // One step of the count in a word of any length, and of the mask that goes
  // with it; the masks of a four byte word are those of the source.
  function Pairs(x: nat, m: nat): int { x - And(x / 2, m) }
  function Nibbles(x: nat, m: nat): nat { And(x, m) + And(x / 4, m) }
  function Lanes(x: nat, m: nat): nat { And(x + x / 16, m) }

  function Repeat(b: nat, n: nat): nat
    decreases n
  {
    if n == 0 then 0 else 256 * Repeat(b, n - 1) + b
  }

  lemma SourceMasks()
    ensures Repeat(0x55, 4) == 0x55555555 && Repeat(0x33, 4) == 0x33333333 && Repeat(0x0f, 4) == 0x0f0f0f0f
  {
    assert Repeat(0x55, 2) == 0x5555 && Repeat(0x33, 2) == 0x3333 && Repeat(0x0f, 2) == 0x0f0f;
  }

  /** The count of each pair of bits. */
  function PairSums(c0: bool, c1: bool, c2: bool, c3: bool, c4: bool, c5: bool, c6: bool, c7: bool): nat {
    (One(c0) + One(c1)) + 4 * (One(c2) + One(c3)) + 16 * (One(c4) + One(c5)) + 64 * (One(c6) + One(c7))
  }

  lemma PairsByte(x: nat, m: nat, c0: bool, c1: bool, c2: bool, c3: bool, c4: bool, c5: bool, c6: bool, c7: bool)
    ensures Pairs(256 * x + Byte(c0, c1, c2, c3, c4, c5, c6, c7), 256 * m + 0x55)
         == 256 * Pairs(x, m) + PairSums(c0, c1, c2, c3, c4, c5, c6, c7)
  {
    hide And, One;
    var top := x % 2 == 1;
    Halve(x);
    HalfOf(256 * (x / 2) + Byte(c1, c2, c3, c4, c5, c6, c7, top), c0);
    And55(x / 2, m, c1, c2, c3, c4, c5, c6, c7, top);
  }

  /** Counts of pairs become counts of nibbles. */
  lemma NibblesByte(x: nat, m: nat, a0: nat, a1: nat, a2: nat, a3: nat)
    requires a0 < 4 && a1 < 4 && a2 < 4 && a3 < 4
    ensures Nibbles(256 * x + a0 + 4 * a1 + 16 * a2 + 64 * a3, 256 * m + 0x33)
         == 256 * Nibbles(x, m) + (a0 + a1) + 16 * (a2 + a3)
  {
    hide And;
    And33(x, m, a0, a1, a2, a3);
    And33(x / 4, m, a1, a2, a3, x % 4);
    assert (256 * x + a0 + 4 * a1 + 16 * a2 + 64 * a3) / 4
        == 256 * (x / 4) + a1 + 4 * a2 + 16 * a3 + 64 * (x % 4);
  }

  /** The low nibble of the sum holds the count of the byte. */
  lemma LanesByte(x: nat, m: nat, n0: nat, n1: nat)
    requires n0 <= 4 && n1 <= 4 && x % 16 <= 4
    ensures Lanes(256 * x + n0 + 16 * n1, 256 * m + 0x0f) == 256 * Lanes(x, m) + n0 + n1
  {
    hide And;
    var w := 256 * x + n0 + 16 * n1;
    var l := n0 + 17 * n1 + 16 * (x % 16);
    assert w / 16 == 16 * x + n1;
    assert w + w / 16 == 256 * (x + x / 16) + l && l < 256;
    AndFifteen(x + x / 16, m, n0 + n1, n1 + x % 16);
  }

  lemma AndFifteen(x: nat, m: nat, r: nat, h: nat)
    requires r < 16 && h < 16
    ensures And(256 * x + 16 * h + r, 256 * m + 15) == 256 * And(x, m) + r
  {
    hide And;
    var c0, c1, c2, c3 := NibbleBits(r);
    var d0, d1, d2, d3 := NibbleBits(h);
    Numerals();
    AndByte(x, m, c0, c1, c2, c3, d0, d1, d2, d3, true, true, true, true, false, false, false, false);
    hide One;
  }

  lemma NibbleBits(r: nat) returns (c0: bool, c1: bool, c2: bool, c3: bool)
    requires r < 16
    ensures r == One(c0) + 2 * One(c1) + 4 * One(c2) + 8 * One(c3)
  {
    c0, c1, c2, c3 := r % 2 == 1, (r / 2) % 2 == 1, (r / 4) % 2 == 1, r / 8 == 1;
  }

  // ----- the counts of all bytes of a word at once -----

  /** Bytes as a little-endian number. */
  function Number(bs: seq<bv8>): nat
    decreases |bs|
  {
    if bs == [] then 0 else 256 * Number(bs[1..]) + (bs[0] as int)
  }

  /** The set bits among two neighbours, the lowest pair first. */
  function Two(b: bv8, i: nat): nat
    requires i < 4
  {
    One(ByteBit(b, 7 - 2 * i)) + One(ByteBit(b, 6 - 2 * i))
  }

  function PairsOf(b: bv8): nat { Two(b, 0) + 4 * Two(b, 1) + 16 * Two(b, 2) + 64 * Two(b, 3) }
  function LowOnes(b: bv8): nat { Two(b, 0) + Two(b, 1) }
  function HighOnes(b: bv8): nat { Two(b, 2) + Two(b, 3) }

  function PairWord(bs: seq<bv8>): nat
    decreases |bs|
  {
    if bs == [] then 0 else 256 * PairWord(bs[1..]) + PairsOf(bs[0])
  }

  function NibbleWord(bs: seq<bv8>): nat
    decreases |bs|
  {
    if bs == [] then 0 else 256 * NibbleWord(bs[1..]) + LowOnes(bs[0]) + 16 * HighOnes(bs[0])
  }

  function CountWord(bs: seq<bv8>): nat
    decreases |bs|
  {
    if bs == [] then 0 else 256 * CountWord(bs[1..]) + ByteOnes(bs[0])
  }

  lemma ByteNumber(b: bv8)
    ensures b as int == Byte(ByteBit(b, 7), ByteBit(b, 6), ByteBit(b, 5), ByteBit(b, 4),
                             ByteBit(b, 3), ByteBit(b, 2), ByteBit(b, 1), ByteBit(b, 0))
  {
  }

  lemma NoAnd(m: nat)
    ensures And(0, m) == 0
  {
  }

  lemma PairsOfByte(x: nat, m: nat, b: bv8)
    ensures Pairs(256 * x + (b as int), 256 * m + 0x55) == 256 * Pairs(x, m) + PairsOf(b)
  {
    hide Pairs, ByteBit, Byte, PairsOf, PairSums;
    ByteNumber(b);
    PairsByte(x, m, ByteBit(b, 7), ByteBit(b, 6), ByteBit(b, 5), ByteBit(b, 4),
              ByteBit(b, 3), ByteBit(b, 2), ByteBit(b, 1), ByteBit(b, 0));
    PairsOfIs(b);
  }

  lemma PairsOfIs(b: bv8)
    ensures PairsOf(b) == PairSums(ByteBit(b, 7), ByteBit(b, 6), ByteBit(b, 5), ByteBit(b, 4),
                                   ByteBit(b, 3), ByteBit(b, 2), ByteBit(b, 1), ByteBit(b, 0))
  {
    hide ByteBit, One;
  }

  lemma {:induction false} PairsAll(bs: seq<bv8>)
    ensures Pairs(Number(bs), Repeat(0x55, |bs|)) == PairWord(bs)
    decreases |bs|
  {
    hide And, PairsOf;
    if bs == [] {
      NoAnd(0);
    } else {
      hide Pairs;
      PairsAll(bs[1..]);
      PairsOfByte(Number(bs[1..]), Repeat(0x55, |bs| - 1), bs[0]);
    }
  }

  lemma SmallTwo(b: bv8, i: nat)
    requires i < 4
    ensures Two(b, i) < 3
  {
    hide ByteBit;
  }

  lemma NibblesOf(x: nat, m: nat, b: bv8)
    ensures Nibbles(256 * x + PairsOf(b), 256 * m + 0x33) == 256 * Nibbles(x, m) + LowOnes(b) + 16 * HighOnes(b)
  {
    hide Nibbles, Two;
    SmallTwo(b, 0);
    SmallTwo(b, 1);
    SmallTwo(b, 2);
    SmallTwo(b, 3);
    NibblesByte(x, m, Two(b, 0), Two(b, 1), Two(b, 2), Two(b, 3));
    assert 256 * x + PairsOf(b) == 256 * x + Two(b, 0) + 4 * Two(b, 1) + 16 * Two(b, 2) + 64 * Two(b, 3);
  }

  lemma {:induction false} NibblesAll(bs: seq<bv8>)
    ensures Nibbles(PairWord(bs), Repeat(0x33, |bs|)) == NibbleWord(bs)
    decreases |bs|
  {
    hide And, PairsOf, LowOnes, HighOnes;
    if bs == [] {
      NoAnd(0);
    } else {
      hide Nibbles;
      NibblesAll(bs[1..]);
      NibblesOf(PairWord(bs[1..]), Repeat(0x33, |bs| - 1), bs[0]);
    }
  }

  lemma SmallOnes(b: bv8)
    ensures LowOnes(b) <= 4 && HighOnes(b) <= 4 && ByteOnes(b) == LowOnes(b) + HighOnes(b)
  {
    hide ByteBit;
  }

  lemma ModSixteen(x: nat, l: nat, h: nat)
    requires l < 16
    ensures (256 * x + l + 16 * h) % 16 == l
  {
  }

  lemma LowNibble(bs: seq<bv8>)
    ensures NibbleWord(bs) % 16 <= 4
  {
    hide LowOnes, HighOnes, ByteOnes;
    if bs != [] {
      SmallOnes(bs[0]);
      ModSixteen(NibbleWord(bs[1..]), LowOnes(bs[0]), HighOnes(bs[0]));
    }
  }

  lemma {:induction false} LanesAll(bs: seq<bv8>)
    ensures Lanes(NibbleWord(bs), Repeat(0x0f, |bs|)) == CountWord(bs)
    decreases |bs|
  {
    hide And, LowOnes, HighOnes, ByteOnes;
    if bs == [] {
      NoAnd(0);
    } else {
      LanesAll(bs[1..]);
      LowNibble(bs[1..]);
      SmallOnes(bs[0]);
      LanesByte(NibbleWord(bs[1..]), Repeat(0x0f, |bs| - 1), LowOnes(bs[0]), HighOnes(bs[0]));
    }
  }

  /** The three steps of the source on a four byte word. */
  function Swar(x: nat): int {
    var p := Pairs(x, 0x55555555);
    if p < 0 then 0 else Lanes(Nibbles(p, 0x33333333), 0x0f0f0f0f)
  }

  lemma SwarCounts(bs: seq<bv8>)
    requires |bs| == 4
    ensures Swar(Number(bs)) == CountWord(bs)
    ensures CountWord(bs) == ByteOnes(bs[0]) + 0x100 * ByteOnes(bs[1]) + 0x10000 * ByteOnes(bs[2]) + 0x1000000 * ByteOnes(bs[3])
  {
    hide Pairs, Nibbles, Lanes, Repeat, Number, ByteOnes, PairWord, NibbleWord;
    SourceMasks();
    PairsAll(bs);
    NibblesAll(bs);
    LanesAll(bs);
    var b1, b2, b3 := bs[1..], bs[1..][1..], bs[1..][1..][1..];
    assert b3[1..] == [] && b1[0] == bs[1] && b2[0] == bs[2] && b3[0] == bs[3];
    assert CountWord(b2) == 256 * CountWord(b3) + ByteOnes(bs[2]);
    assert CountWord(b3) == ByteOnes(bs[3]);
  }

  // ----- seven words -----

  /** Addition of the 32-bit counters. */
  function Add32(x: int, y: int): int { (x + y) % WORD }

  /** The multiplication adds the four counters up in the top byte. */
  function Gather(x: int): int { ((x * 0x01010101) % WORD) / 0x1000000 }

  lemma GatherSum(a0: nat, a1: nat, a2: nat, a3: nat)
    requires a0 <= 56 && a1 <= 56 && a2 <= 56 && a3 <= 56
    ensures Gather(a0 + 0x100 * a1 + 0x10000 * a2 + 0x1000000 * a3) == a0 + a1 + a2 + a3
  {
    var x := a0 + 0x100 * a1 + 0x10000 * a2 + 0x1000000 * a3;
    var low := a0 + 0x100 * (a0 + a1) + 0x10000 * (a0 + a1 + a2);
    var r := low + 0x1000000 * (a0 + a1 + a2 + a3);
    var high := (a1 + a2 + a3) + 0x100 * (a2 + a3) + 0x10000 * a3;
    assert x * 0x01010101 == r + WORD * high;
    assert 0 <= low < 0x1000000 && 0 <= r < WORD;
    RemainderIs(x * 0x01010101, high, r);
    QuotientIs(r, a0 + a1 + a2 + a3, low);
  }

  lemma RemainderIs(p: int, q: int, r: int)
    requires p == r + WORD * q && 0 <= r < WORD
    ensures p % WORD == r
  {
  }

  lemma QuotientIs(p: int, q: int, r: int)
    requires p == r + 0x1000000 * q && 0 <= r < 0x1000000
    ensures p / 0x1000000 == q
  {
  }

  /** The sum of the counters of the first `k` words. */
  function Sum(bs: seq<bv8>, k: nat): int
    requires 1 <= k && 4 * k <= |bs|
    decreases k
  {
    var w := Swar(Number(bs[4 * k - 4..4 * k]));
    if k == 1 then w else Add32(Sum(bs, k - 1), w)
  }

  lemma {:induction false} SumLanes(bs: seq<bv8>, k: nat) returns (a0: nat, a1: nat, a2: nat, a3: nat)
    requires 1 <= k <= 7 && 4 * k <= |bs|
    ensures Sum(bs, k) == a0 + 0x100 * a1 + 0x10000 * a2 + 0x1000000 * a3
    ensures a0 <= 8 * k && a1 <= 8 * k && a2 <= 8 * k && a3 <= 8 * k
    ensures a0 + a1 + a2 + a3 == Ones(bs[..4 * k])
    decreases k
  {
    hide Swar, Number, ByteOnes, Ones, CountWord, Add32;
    var g := bs[4 * k - 4..4 * k];
    SwarCounts(g);
    OnesOfFour(g);
    if k == 1 {
      assert bs[..4] == g;
      a0, a1, a2, a3 := ByteOnes(g[0]), ByteOnes(g[1]), ByteOnes(g[2]), ByteOnes(g[3]);
    } else {
      a0, a1, a2, a3 := SumLanes(bs, k - 1);
      AddLanes(a0, a1, a2, a3, ByteOnes(g[0]), ByteOnes(g[1]), ByteOnes(g[2]), ByteOnes(g[3]));
      a0, a1, a2, a3 := a0 + ByteOnes(g[0]), a1 + ByteOnes(g[1]), a2 + ByteOnes(g[2]), a3 + ByteOnes(g[3]);
      OnesConcat(bs[..4 * (k - 1)], g);
      assert bs[..4 * k] == bs[..4 * (k - 1)] + g;
    }
  }

  /** Counters add up without touching their neighbours. */
  lemma AddLanes(a0: nat, a1: nat, a2: nat, a3: nat, b0: nat, b1: nat, b2: nat, b3: nat)
    requires a0 <= 48 && a1 <= 48 && a2 <= 48 && a3 <= 48 && b0 <= 8 && b1 <= 8 && b2 <= 8 && b3 <= 8
    ensures Add32(a0 + 0x100 * a1 + 0x10000 * a2 + 0x1000000 * a3, b0 + 0x100 * b1 + 0x10000 * b2 + 0x1000000 * b3)
         == (a0 + b0) + 0x100 * (a1 + b1) + 0x10000 * (a2 + b2) + 0x1000000 * (a3 + b3)
  {
  }

  lemma OnesOfFour(g: seq<bv8>)
    requires |g| == 4
    ensures Ones(g) == ByteOnes(g[0]) + ByteOnes(g[1]) + ByteOnes(g[2]) + ByteOnes(g[3])
    ensures ByteOnes(g[0]) <= 8 && ByteOnes(g[1]) <= 8 && ByteOnes(g[2]) <= 8 && ByteOnes(g[3]) <= 8
  {
    hide ByteOnes;
    SmallByte(g[0]);
    SmallByte(g[1]);
    SmallByte(g[2]);
    SmallByte(g[3]);
    forall i | 0 <= i < 4 ensures Ones(g[..i + 1]) == Ones(g[..i]) + ByteOnes(g[i]) {
      OnesNext(g, i);
    }
    assert g[..0] == [] && g[..4] == g;
    assert Ones(g[..2]) == ByteOnes(g[0]) + ByteOnes(g[1]);
  }

  lemma OnesNext(s: seq<bv8>, i: nat)
    requires i < |s|
    ensures Ones(s[..i + 1]) == Ones(s[..i]) + ByteOnes(s[i])
  {
    hide ByteOnes;
    assert s[..i + 1][..i] == s[..i];
  }

  lemma SmallByte(b: bv8)
    ensures ByteOnes(b) <= 8
  {
    hide ByteBit;
  }

  /** Seven words: no counter exceeds 56 and their sum stays below 256. */
  lemma BlockCounts(bs: seq<bv8>)
    requires |bs| == 28
    ensures Gather(Sum(bs, 7)) == Ones(bs)
  {
    hide Sum, Ones, Gather;
    var a0, a1, a2, a3 := SumLanes(bs, 7);
    GatherSum(a0, a1, a2, a3);
    assert bs[..28] == bs;
  }

  /** redisPopcount on the bytes `s`, which start at address `addr`. */
  method RedisPopcount(s: seq<bv8>, addr: nat) returns (bits: nat)
    ensures bits == Ones(s)
  {
    hide Ones, ByteOnes, Gather, Sum;
    bits := 0;
    var p := 0;
    NoOnes();
    assert s[..0] == [];
    while (addr + p) % 4 != 0 && p < |s|
      invariant p <= |s| && bits == Ones(s[..p])
      decreases |s| - p
    {
      OnesNext(s, p);
      bits := bits + ByteOnes(s[p]);
      p := p + 1;
    }
    while |s| - p >= 28
      invariant p <= |s| && bits == Ones(s[..p])
    {
      var block := s[p..p + 28];
      BlockCounts(block);
      OnesConcat(s[..p], block);
      assert s[..p + 28] == s[..p] + block;
      bits := bits + Gather(Sum(block, 7));
      p := p + 28;
    }
    while p < |s|
      invariant p <= |s| && bits == Ones(s[..p])
    {
      OnesNext(s, p);
      bits := bits + ByteOnes(s[p]);
      p := p + 1;
    }
    assert s[..|s|] == s;
  }

  lemma NoOnes()
    ensures Ones([]) == 0
  {
  }
}
