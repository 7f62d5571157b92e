/**
 CRC-64 as a shift register fed bit by bit (crc64.c), and its reflected form:
 the same register run from the other end, eight input bits at a time.
 */
module Crc64 {

  const POLY: bv64 := 0xad93d23594c935a9
  const REFLECTED_POLY: bv64 := 0x95ac9329ac4bc9b5
  const TOP_BIT: bv64 := 0x8000000000000000

  // ----- the reference: most significant bit first -----

  /** One input bit of the reference register. */
  function LeftStep(crc: bv64, input: bool): bv64 {
    if ((crc & TOP_BIT) != 0) != input then (crc << 1) ^ POLY else crc << 1
  }

  function InputBit(c: bv8, i: nat): bool
    requires i < 8
  {
    (c >> i) & 1 != 0
  }

  /** The bits of a byte from number `i` on, the least significant first. */
  function LeftBits(crc: bv64, c: bv8, i: nat): bv64
    requires i <= 8
    decreases 8 - i
  {
    if i == 8 then crc else LeftBits(LeftStep(crc, InputBit(c, i)), c, i + 1)
  }

  /** The loop of _crc64 over whole bytes. */
  function LeftBytes(crc: bv64, data: seq<bv8>): bv64
    decreases |data|
  {
    if data == [] then crc else LeftBytes(LeftBits(crc, data[0], 0), data[1..])
  }

  /** All 64 bits in reverse order, by swapping ever larger groups. */
  function Reflect(x: bv64): bv64 {
    var a := ((x >> 1) & 0x5555555555555555) | ((x & 0x5555555555555555) << 1);
    var b := ((a >> 2) & 0x3333333333333333) | ((a & 0x3333333333333333) << 2);
    var c := ((b >> 4) & 0x0f0f0f0f0f0f0f0f) | ((b & 0x0f0f0f0f0f0f0f0f) << 4);
    var d := ((c >> 8) & 0x00ff00ff00ff00ff) | ((c & 0x00ff00ff00ff00ff) << 8);
    var e := ((d >> 16) & 0x0000ffff0000ffff) | ((d & 0x0000ffff0000ffff) << 16);
    (e >> 32) | (e << 32)
  }

  /** What that means for a single bit. */
  lemma ReflectBit(x: bv64, i: bv64)
    requires i < 64
    ensures (Reflect(x) >> i) & 1 == (x >> (63 - i)) & 1
  {
  }

  /** _crc64 */
  function BitwiseCrc(crc: bv64, data: seq<bv8>): bv64 {
    Reflect(LeftBytes(crc, data))
  }

  // Words are moved by these named operations, so that proofs about loops do
  // not have to look at single bits.
  function Half(x: bv64): bv64 { x >> 1 }
  function Twice(x: bv64): bv64 { x << 1 }
  function LowBit(x: bv64): bv64 { x & 1 }
  function HighBit(x: bv64): bv64 { x >> 63 }
  function Push(x: bv64, bit: bv64): bv64 { (x << 1) | bit }

  /** `n` more turns of the loop of crc_reflect. */
  function ReflectLoop(data: bv64, ret: bv64, n: nat): bv64
    decreases n
  {
    if n == 0 then ret else ReflectLoop(Half(data), Push(ret, LowBit(Half(data))), n - 1)
  }

  /** crc_reflect of a whole word: bit by bit. */
  method CrcReflect(data: bv64) returns (r: bv64)
    ensures r == Reflect(data)
  {
    hide Reflect, Half, Push, LowBit;
    var d, ret := data, LowBit(data);
    ReflectLoopReflects(data);
    for i := 1 to 64
      invariant ReflectLoop(d, ret, 64 - i) == Reflect(data)
    {
      d := Half(d);
      ret := Push(ret, LowBit(d));
    }
    return ret;
  }

  /** The same loop on the reflected word, which it shifts out at the top. */
  function ShiftOut(y: bv64, ret: bv64, n: nat): bv64
    decreases n
  {
    if n == 0 then ret else ShiftOut(Twice(y), Push(ret, HighBit(y)), n - 1)
  }

  lemma {:induction false} LoopShiftsOut(d: bv64, ret: bv64, n: nat)
    ensures ReflectLoop(d, ret, n) == ShiftOut(Reflect(Half(d)), ret, n)
    decreases n
  {
    hide Reflect, Half, Twice, LowBit, HighBit, Push;
    if n > 0 {
      ReflectShift(Half(d));
      LoopShiftsOut(Half(d), Push(ret, LowBit(Half(d))), n - 1);
    }
  }

  lemma ReflectShift(x: bv64)
    ensures Reflect(Half(x)) == Twice(Reflect(x))
    ensures LowBit(x) == HighBit(Reflect(x))
  {
  }

  /** `s` turns at once. */
  function Left(y: bv64, s: nat): bv64
    requires s <= 64
  {
    y << s
  }

  function Take(y: bv64, ret: bv64, s: nat): bv64
    requires s <= 64
  {
    (ret << s) | (y >> (64 - s))
  }

  lemma Shift1(y: bv64, ret: bv64, n: nat)
    requires n >= 1
    ensures ShiftOut(y, ret, n) == ShiftOut(Left(y, 1), Take(y, ret, 1), n - 1)
  {
    Take1(y, ret);
    hide Left, Take, Twice, HighBit, Push;
  }

  lemma Take1(y: bv64, ret: bv64)
    ensures Left(y, 1) == Twice(y) && Take(y, ret, 1) == Push(ret, HighBit(y))
  {
  }

  lemma Take2(y: bv64, ret: bv64)
    ensures Left(Left(y, 1), 1) == Left(y, 2)
    ensures Take(Left(y, 1), Take(y, ret, 1), 1) == Take(y, ret, 2)
  {
  }

  lemma Shift2(y: bv64, ret: bv64, n: nat)
    requires n >= 2
    ensures ShiftOut(y, ret, n) == ShiftOut(Left(y, 2), Take(y, ret, 2), n - 2)
  {
    Take2(y, ret);
    hide ShiftOut, Take, Left;
    Shift1(y, ret, n);
    Shift1(Left(y, 1), Take(y, ret, 1), n - 1);
  }

  lemma Take4(y: bv64, ret: bv64)
    ensures Left(Left(y, 2), 2) == Left(y, 4)
    ensures Take(Left(y, 2), Take(y, ret, 2), 2) == Take(y, ret, 4)
  {
  }

  lemma Shift4(y: bv64, ret: bv64, n: nat)
    requires n >= 4
    ensures ShiftOut(y, ret, n) == ShiftOut(Left(y, 4), Take(y, ret, 4), n - 4)
  {
    Take4(y, ret);
    hide ShiftOut, Take, Left;
    Shift2(y, ret, n);
    Shift2(Left(y, 2), Take(y, ret, 2), n - 2);
  }

  lemma Take8(y: bv64, ret: bv64)
    ensures Left(Left(y, 4), 4) == Left(y, 8)
    ensures Take(Left(y, 4), Take(y, ret, 4), 4) == Take(y, ret, 8)
  {
  }

  lemma Shift8(y: bv64, ret: bv64, n: nat)
    requires n >= 8
    ensures ShiftOut(y, ret, n) == ShiftOut(Left(y, 8), Take(y, ret, 8), n - 8)
  {
    Take8(y, ret);
    hide ShiftOut, Take, Left;
    Shift4(y, ret, n);
    Shift4(Left(y, 4), Take(y, ret, 4), n - 4);
  }

  lemma Take16(y: bv64, ret: bv64)
    ensures Left(Left(y, 8), 8) == Left(y, 16)
    ensures Take(Left(y, 8), Take(y, ret, 8), 8) == Take(y, ret, 16)
  {
  }

  lemma Shift16(y: bv64, ret: bv64, n: nat)
    requires n >= 16
    ensures ShiftOut(y, ret, n) == ShiftOut(Left(y, 16), Take(y, ret, 16), n - 16)
  {
    Take16(y, ret);
    hide ShiftOut, Take, Left;
    Shift8(y, ret, n);
    Shift8(Left(y, 8), Take(y, ret, 8), n - 8);
  }

  lemma Take32(y: bv64, ret: bv64)
    ensures Left(Left(y, 16), 16) == Left(y, 32)
    ensures Take(Left(y, 16), Take(y, ret, 16), 16) == Take(y, ret, 32)
  {
  }

  lemma Shift32(y: bv64, ret: bv64, n: nat)
    requires n >= 32
    ensures ShiftOut(y, ret, n) == ShiftOut(Left(y, 32), Take(y, ret, 32), n - 32)
  {
    Take32(y, ret);
    hide ShiftOut, Take, Left;
    Shift16(y, ret, n);
    Shift16(Left(y, 16), Take(y, ret, 16), n - 16);
  }

  /** The loop of crc_reflect reverses the word. */
  lemma ReflectLoopReflects(x: bv64)
    ensures ReflectLoop(x, LowBit(x), 63) == Reflect(x)
  {
    hide Reflect, Take, Left, Half, LowBit, Whole, ReflectLoop, ShiftOut;
    var y, ret := Reflect(Half(x)), LowBit(x);
    TakeAll(y, ret);
    ReflectSplit(x);
    LoopShiftsOut(x, ret, 63);
    var y1, r1 := Left(y, 32), Take(y, ret, 32);
    var y2, r2 := Left(y1, 16), Take(y1, r1, 16);
    var y3, r3 := Left(y2, 8), Take(y2, r2, 8);
    var y4, r4 := Left(y3, 4), Take(y3, r3, 4);
    var y5, r5 := Left(y4, 2), Take(y4, r4, 2);
    Shift32(y, ret, 63);
    Shift16(y1, r1, 31);
    Shift8(y2, r2, 15);
    Shift4(y3, r3, 7);
    Shift2(y4, r4, 3);
    Shift1(y5, r5, 1);
    ShiftEnds(Left(y5, 1), Take(y5, r5, 1));
  }

  lemma ShiftEnds(y: bv64, ret: bv64)
    ensures ShiftOut(y, ret, 0) == ret
  {
  }

  function Whole(y: bv64, ret: bv64): bv64 {
    (ret << 63) | (y >> 1)
  }

  lemma TakeAll(y: bv64, ret: bv64)
    ensures var y1, r1 := Left(y, 32), Take(y, ret, 32);
            var y2, r2 := Left(y1, 16), Take(y1, r1, 16);
            var y3, r3 := Left(y2, 8), Take(y2, r2, 8);
            var y4, r4 := Left(y3, 4), Take(y3, r3, 4);
            var y5, r5 := Left(y4, 2), Take(y4, r4, 2);
            Take(y5, r5, 1) == Whole(y, ret)
  {
  }

  lemma ReflectSplit(x: bv64)
    ensures Whole(Reflect(Half(x)), LowBit(x)) == Reflect(x)
  {
  }

  /** _crc64: the register run bit by bit, and then reflected. */
  method Crc64Bitwise(crc: bv64, data: seq<bv8>) returns (r: bv64)
    ensures r == BitwiseCrc(crc, data)
  {
    hide LeftStep, InputBit, Reflect;
    var reg := crc;
    var offset := 0;
    assert data[0..] == data;
    while offset < |data|
      invariant 0 <= offset <= |data|
      invariant LeftBytes(reg, data[offset..]) == LeftBytes(crc, data)
    {
      var c := data[offset];
      assert data[offset..][1..] == data[offset + 1..];
      ghost var start := reg;
      for i := 0 to 8
        invariant LeftBits(reg, c, i) == LeftBits(start, c, 0)
      {
        reg := LeftStep(reg, InputBit(c, i));
      }
      offset := offset + 1;
    }
    r := CrcReflect(reg);
  }
}
