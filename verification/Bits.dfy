/**
 Strings as bitmaps (bitops.c): bit 0 is the most significant bit of the
 first byte.
 */
module Bits {

  /** Bit `j` of a byte, counted from the most significant. */
  predicate ByteBit(b: bv8, j: nat)
    requires j < 8
  {
    match j
    case 0 => b & 0x80 != 0
    case 1 => b & 0x40 != 0
    case 2 => b & 0x20 != 0
    case 3 => b & 0x10 != 0
    case 4 => b & 0x08 != 0
    case 5 => b & 0x04 != 0
    case 6 => b & 0x02 != 0
    case 7 => b & 0x01 != 0
  }

  predicate BitAt(s: seq<bv8>, i: nat)
    requires i < 8 * |s|
  {
    ByteBit(s[i / 8], i % 8)
  }

  lemma BitOfByte(s: seq<bv8>, c: nat, r: nat)
    requires c < |s| && r < 8
    ensures BitAt(s, 8 * c + r) == ByteBit(s[c], r)
  {
    hide ByteBit;
    assert (8 * c + r) / 8 == c && (8 * c + r) % 8 == r;
  }

  /** A byte of nothing but the other bit can be skipped. */
  lemma PlainByte(b: bv8, bit: bool, j: nat)
    requires j < 8 && b == if bit then 0 else 0xff
    ensures ByteBit(b, j) != bit
  {
  }

  lemma ByteFound(b: bv8, bit: bool) returns (j: nat)
    requires b != if bit then 0 else 0xff
    ensures j < 8 && ByteBit(b, j) == bit
  {
    if ByteBit(b, 0) == bit { return 0; }
    if ByteBit(b, 1) == bit { return 1; }
    if ByteBit(b, 2) == bit { return 2; }
    if ByteBit(b, 3) == bit { return 3; }
    if ByteBit(b, 4) == bit { return 4; }
    if ByteBit(b, 5) == bit { return 5; }
    if ByteBit(b, 6) == bit { return 6; }
    return 7;
  }

  // ----- words -----

  const TOP: bv64 := 0x8000000000000000

  function Half(x: bv64): bv64 { x >> 1 }
  function Twice(x: bv64): bv64 { x << 1 }
  function Up8(x: bv64): bv64 { x << 8 }
  function Down8(x: bv64): bv64 { x >> 8 }
  predicate Meets(x: bv64, y: bv64) { x & y != 0 }
  function TopByte(x: bv64): bv8 { (x >> 56) as bv8 }

  /** Bit `j` of a word, counted from the most significant. */
  predicate WordBit(w: bv64, j: nat)
    decreases j
  {
    if j == 0 then Meets(TOP, w) else WordBit(Twice(w), j - 1)
  }

  /** The mask after `j` turns of the bit scan. */
  function Mask(j: nat): bv64
    decreases j
  {
    if j == 0 then TOP else Half(Mask(j - 1))
  }

  lemma {:induction false} MaskMeets(w: bv64, j: nat)
    ensures Meets(Mask(j), w) == WordBit(w, j)
    decreases j
  {
    hide Meets, Half, Twice;
    if j > 0 {
      MeetsHalf(Mask(j - 1), w);
      MaskMeets(Twice(w), j - 1);
    }
  }

  lemma MeetsHalf(m: bv64, w: bv64)
    ensures Meets(Half(m), w) == Meets(m, Twice(w))
  {
  }

  /** The first eight bits of a word are those of its top byte. */
  lemma TopBits(w: bv64, r: nat)
    requires r < 8
    ensures WordBit(w, r) == ByteBit(TopByte(w), r)
  {
    hide WordBit, Twice;
    var w1 := Twice(w);
    var w2 := Twice(w1);
    var w3 := Twice(w2);
    var w4 := Twice(w3);
    var w5 := Twice(w4);
    var w6 := Twice(w5);
    var w7 := Twice(w6);
    if r >= 1 { NextBit(w, r); }
    if r >= 2 { NextBit(w1, r - 1); }
    if r >= 3 { NextBit(w2, r - 2); }
    if r >= 4 { NextBit(w3, r - 3); }
    if r >= 5 { NextBit(w4, r - 4); }
    if r >= 6 { NextBit(w5, r - 5); }
    if r >= 7 { NextBit(w6, r - 6); }
    TopShifts(w);
    FirstBit(w);
    FirstBit(w1);
    FirstBit(w2);
    FirstBit(w3);
    FirstBit(w4);
    FirstBit(w5);
    FirstBit(w6);
    FirstBit(w7);
    hide Meets, ByteBit, TopByte;
  }

  lemma NextBit(w: bv64, r: nat)
    requires r >= 1
    ensures WordBit(w, r) == WordBit(Twice(w), r - 1)
  {
  }

  lemma FirstBit(w: bv64)
    ensures WordBit(w, 0) == Meets(TOP, w)
  {
  }

  lemma TopShifts(w: bv64)
    ensures var w1 := Twice(w); var w2 := Twice(w1); var w3 := Twice(w2); var w4 := Twice(w3);
            var w5 := Twice(w4); var w6 := Twice(w5); var w7 := Twice(w6);
            var b := TopByte(w);
            && Meets(TOP, w) == ByteBit(b, 0) && Meets(TOP, w1) == ByteBit(b, 1)
            && Meets(TOP, w2) == ByteBit(b, 2) && Meets(TOP, w3) == ByteBit(b, 3)
            && Meets(TOP, w4) == ByteBit(b, 4) && Meets(TOP, w5) == ByteBit(b, 5)
            && Meets(TOP, w6) == ByteBit(b, 6) && Meets(TOP, w7) == ByteBit(b, 7)
  {
  }

  /** The other bits are those of the word moved up. */
  lemma LaterBits(w: bv64, j: nat)
    requires j >= 8
    ensures WordBit(w, j) == WordBit(Up8(w), j - 8)
  {
    hide WordBit, Twice, Up8;
    var w1 := Twice(w);
    var w2 := Twice(w1);
    var w3 := Twice(w2);
    var w4 := Twice(w3);
    var w5 := Twice(w4);
    var w6 := Twice(w5);
    var w7 := Twice(w6);
    NextBit(w, j);
    NextBit(w1, j - 1);
    NextBit(w2, j - 2);
    NextBit(w3, j - 3);
    NextBit(w4, j - 4);
    NextBit(w5, j - 5);
    NextBit(w6, j - 6);
    NextBit(w7, j - 7);
    TwiceEight(w);
  }

  lemma TwiceEight(w: bv64)
    ensures Twice(Twice(Twice(Twice(Twice(Twice(Twice(Twice(w)))))))) == Up8(w)
  {
  }

  // ----- eight bytes as a word, the first byte on top -----

  function Push8(w: bv64, b: bv8): bv64 { (w << 8) | (b as bv64) }

  function Pack(b: seq<bv8>): bv64
    requires |b| <= 8
    decreases |b|
  {
    if b == [] then 0 else Push8(Pack(b[..|b| - 1]), b[|b| - 1])
  }

  lemma PackEight(b: seq<bv8>)
    requires |b| == 8
    ensures Pack(b) == Push8(Push8(Push8(Push8(Push8(Push8(Push8(Push8(0, b[0]), b[1]), b[2]), b[3]), b[4]), b[5]), b[6]), b[7])
  {
    hide Pack, Push8;
    forall i | 0 <= i < 8 ensures Pack(b[..i + 1]) == Push8(Pack(b[..i]), b[i]) {
      PackSnoc(b[..i + 1]);
      assert b[..i + 1][..i] == b[..i];
    }
    PackNone();
    assert b[..0] == [] && b[..8] == b;
    var p4 := Pack(b[..4]);
    assert p4 == Push8(Push8(Push8(Push8(0, b[0]), b[1]), b[2]), b[3]);
    assert Pack(b[..8]) == Push8(Push8(Push8(Push8(p4, b[4]), b[5]), b[6]), b[7]);
  }

  lemma PackSnoc(b: seq<bv8>)
    requires 0 < |b| <= 8
    ensures Pack(b) == Push8(Pack(b[..|b| - 1]), b[|b| - 1])
  {
  }

  lemma PackNone()
    ensures Pack([]) == 0
  {
  }

  lemma PackBytes(b0: bv8, b1: bv8, b2: bv8, b3: bv8, b4: bv8, b5: bv8, b6: bv8, b7: bv8)
    ensures var w := Push8(Push8(Push8(Push8(Push8(Push8(Push8(Push8(0, b0), b1), b2), b3), b4), b5), b6), b7);
            var w1 := Up8(w); var w2 := Up8(w1); var w3 := Up8(w2); var w4 := Up8(w3);
            var w5 := Up8(w4); var w6 := Up8(w5); var w7 := Up8(w6);
            && TopByte(w) == b0 && TopByte(w1) == b1 && TopByte(w2) == b2 && TopByte(w3) == b3
            && TopByte(w4) == b4 && TopByte(w5) == b5 && TopByte(w6) == b6 && TopByte(w7) == b7
  {
  }

  function UpBytes(w: bv64, q: nat): bv64
    decreases q
  {
    if q == 0 then w else UpBytes(Up8(w), q - 1)
  }

  lemma {:induction false} BitsOfByte(w: bv64, q: nat, r: nat)
    requires r < 8
    ensures WordBit(w, 8 * q + r) == ByteBit(TopByte(UpBytes(w, q)), r)
    decreases q
  {
    hide WordBit, ByteBit, TopByte, Up8;
    if q == 0 {
      TopBits(w, r);
    } else {
      LaterBits(w, 8 * q + r);
      BitsOfByte(Up8(w), q - 1, r);
    }
  }

  /** Bit by bit, the word is its eight bytes. */
  lemma PackBit(b: seq<bv8>, q: nat, r: nat)
    requires |b| == 8 && q < 8 && r < 8
    ensures WordBit(Pack(b), 8 * q + r) == ByteBit(b[q], r)
  {
    hide WordBit, ByteBit, TopByte, Up8, Push8, Pack;
    PackEight(b);
    PackBytes(b[0], b[1], b[2], b[3], b[4], b[5], b[6], b[7]);
    BitsOfByte(Pack(b), q, r);
    UpEight(Pack(b), q);
  }

  lemma UpEight(w: bv64, q: nat)
    requires q < 8
    ensures var w1 := Up8(w); var w2 := Up8(w1); var w3 := Up8(w2); var w4 := Up8(w3);
            var w5 := Up8(w4); var w6 := Up8(w5); var w7 := Up8(w6);
            UpBytes(w, q) == match q case 0 => w case 1 => w1 case 2 => w2 case 3 => w3
                                     case 4 => w4 case 5 => w5 case 6 => w6 case 7 => w7
  {
    hide Up8;
    UpMore(w, q);
  }

  lemma UpMore(w: bv64, q: nat)
    requires q < 8
    ensures q >= 4 ==> UpBytes(w, q) == UpBytes(Up8(Up8(Up8(Up8(w)))), q - 4)
    ensures q < 4 ==> UpBytes(w, q) == match q case 0 => w case 1 => Up8(w) case 2 => Up8(Up8(w)) case 3 => Up8(Up8(Up8(w)))
  {
    hide Up8;
    if q >= 4 {
      var w2 := Up8(Up8(w));
      assert UpBytes(w, q) == UpBytes(w2, q - 2);
      assert UpBytes(w2, q - 2) == UpBytes(Up8(Up8(w2)), q - 4);
    }
  }

  lemma PackPlain(b0: bv8, b1: bv8, b2: bv8, b3: bv8, b4: bv8, b5: bv8, b6: bv8, b7: bv8)
    ensures var w := Push8(Push8(Push8(Push8(Push8(Push8(Push8(Push8(0, b0), b1), b2), b3), b4), b5), b6), b7);
            && (w == 0 <==> b0 == 0 && b1 == 0 && b2 == 0 && b3 == 0 && b4 == 0 && b5 == 0 && b6 == 0 && b7 == 0)
            && (w == 0xffffffffffffffff
                <==> b0 == 0xff && b1 == 0xff && b2 == 0xff && b3 == 0xff && b4 == 0xff && b5 == 0xff && b6 == 0xff && b7 == 0xff)
  {
  }

  /** A word of nothing but the other bit is eight such bytes. */
  lemma PlainWord(b: seq<bv8>, bit: bool)
    requires |b| == 8
    ensures Pack(b) == (if bit then 0 else 0xffffffffffffffff)
       <==> forall q :: 0 <= q < 8 ==> b[q] == if bit then 0 else 0xff
  {
    hide Pack, Push8;
    PackEight(b);
    PackPlain(b[0], b[1], b[2], b[3], b[4], b[5], b[6], b[7]);
  }

  /** The scan reaches every bit before its mask runs out. */
  lemma MaskNotZero(j: nat)
    requires j < 64
    ensures Mask(j) != 0
  {
    hide Half, Down8;
    MaskByte(j / 8);
    MaskInByte(j / 8, j % 8);
    assert 8 * (j / 8) + j % 8 == j;
  }

  function Spot(q: nat): bv64
    requires q < 8
  {
    match q
    case 0 => 0x8000000000000000
    case 1 => 0x80000000000000
    case 2 => 0x800000000000
    case 3 => 0x8000000000
    case 4 => 0x80000000
    case 5 => 0x800000
    case 6 => 0x8000
    case 7 => 0x80
  }

  lemma {:induction false} MaskByte(q: nat)
    requires q < 8
    ensures Mask(8 * q) == Spot(q)
    decreases q
  {
    hide Mask, Half, Down8;
    if q == 0 {
      MaskZero();
    } else {
      MaskByte(q - 1);
      MaskEight(8 * (q - 1));
      SpotNext(q - 1);
    }
  }

  lemma MaskZero()
    ensures Mask(0) == TOP
  {
  }

  lemma SpotNext(q: nat)
    requires q < 7
    ensures Down8(Spot(q)) == Spot(q + 1)
  {
  }

  lemma MaskNext(j: nat)
    ensures Mask(j + 1) == Half(Mask(j))
  {
  }

  lemma MaskEight(j: nat)
    ensures Mask(j + 8) == Down8(Mask(j))
  {
    hide Mask, Half, Down8;
    MaskNext(j);
    MaskNext(j + 1);
    MaskNext(j + 2);
    MaskNext(j + 3);
    MaskNext(j + 4);
    MaskNext(j + 5);
    MaskNext(j + 6);
    MaskNext(j + 7);
    HalfEight(Mask(j));
  }

  lemma HalfEight(x: bv64)
    ensures Half(Half(Half(Half(Half(Half(Half(Half(x)))))))) == Down8(x)
  {
  }

  lemma MaskInByte(q: nat, r: nat)
    requires q < 8 && r < 8 && Mask(8 * q) == Spot(q)
    ensures Mask(8 * q + r) != 0
  {
    hide Mask, Half, Spot;
    var j := 8 * q;
    if r >= 1 { MaskNext(j); }
    if r >= 2 { MaskNext(j + 1); }
    if r >= 3 { MaskNext(j + 2); }
    if r >= 4 { MaskNext(j + 3); }
    if r >= 5 { MaskNext(j + 4); }
    if r >= 6 { MaskNext(j + 5); }
    if r >= 7 { MaskNext(j + 6); }
    SpotHalves(q);
  }

  lemma SpotHalves(q: nat)
    requires q < 8
    ensures var x := Spot(q); var x1 := Half(x); var x2 := Half(x1); var x3 := Half(x2);
            var x4 := Half(x3); var x5 := Half(x4); var x6 := Half(x5);
            x != 0 && x1 != 0 && x2 != 0 && x3 != 0 && x4 != 0 && x5 != 0 && x6 != 0 && Half(x6) != 0
  {
  }
}
