/**
 The table-driven CRC-64 (crcspeed.c): eight bytes at a time through eight
 tables, on machines of either byte order, against the bit-by-bit register.
 */
module CrcSpeed {
  import opened Crc64

  function Xor(x: bv64, y: bv64): bv64 { x ^ y }

  lemma XorAssoc(x: bv64, y: bv64, z: bv64)
    ensures Xor(Xor(x, y), z) == Xor(x, Xor(y, z))
  {
  }

  lemma XorSwap(x: bv64, y: bv64)
    ensures Xor(x, y) == Xor(y, x)
  {
  }

  lemma XorSelf(x: bv64)
    ensures Xor(x, x) == 0
  {
  }

  lemma XorZero(x: bv64)
    ensures Xor(x, 0) == x && Xor(0, x) == x
  {
  }

  // ----- the reflected register -----

  /** One step of the reflected register, with the input already added in. */
  function RightStep(x: bv64): bv64 {
    if LowBit(x) != 0 then Xor(Half(x), REFLECTED_POLY) else Half(x)
  }

  function Steps(x: bv64, n: nat): bv64
    decreases n
  {
    if n == 0 then x else Steps(RightStep(x), n - 1)
  }

  /** The register is linear over exclusive or. */
  lemma StepXor(x: bv64, y: bv64)
    ensures RightStep(Xor(x, y)) == Xor(RightStep(x), RightStep(y))
  {
    var p := REFLECTED_POLY;
    HalfXor(x, y);
    XorParity(x, y);
    var a, b := Half(x), Half(y);
    XorCancel(a, b, p);
    hide Half, Xor, LowBit;
  }

  lemma HalfXor(x: bv64, y: bv64)
    ensures Half(Xor(x, y)) == Xor(Half(x), Half(y))
  {
  }

  lemma XorParity(x: bv64, y: bv64)
    ensures (LowBit(Xor(x, y)) != 0) == ((LowBit(x) != 0) != (LowBit(y) != 0))
  {
  }

  lemma XorCancel(a: bv64, b: bv64, p: bv64)
    ensures Xor(Xor(a, p), Xor(b, p)) == Xor(a, b)
    ensures Xor(Xor(a, p), b) == Xor(Xor(a, b), p)
    ensures Xor(a, Xor(b, p)) == Xor(Xor(a, b), p)
  {
    hide Xor;
    XorAssoc(a, b, p);
    XorAssoc(a, p, b);
    XorSwap(p, b);
    XorAssoc(a, p, Xor(b, p));
    XorAssoc(p, p, b);
    XorSelf(p);
    XorZero(b);
    XorSwap(Xor(b, p), p);
  }

  lemma {:induction false} StepsXor(x: bv64, y: bv64, n: nat)
    ensures Steps(Xor(x, y), n) == Xor(Steps(x, n), Steps(y, n))
    decreases n
  {
    hide Xor, RightStep;
    if n > 0 {
      StepXor(x, y);
      StepsXor(RightStep(x), RightStep(y), n - 1);
    }
  }

  lemma {:induction false} StepsAdd(x: bv64, m: nat, n: nat)
    ensures Steps(x, m + n) == Steps(Steps(x, m), n)
    decreases m
  {
    hide RightStep;
    if m > 0 {
      StepsAdd(RightStep(x), m - 1, n);
    }
  }

  lemma StepEven(x: bv64)
    requires LowBit(x) == 0
    ensures RightStep(x) == Half(x)
  {
  }

  // ----- one input byte -----

  function Wide(b: bv8): bv64 { b as bv64 }
  function Low8(x: bv64): bv64 { x & 0xff }
  function High56(x: bv64): bv64 { x & 0xffffffffffffff00 }
  function Down8(x: bv64): bv64 { x >> 8 }
  function Up8(x: bv64): bv64 { x << 8 }

  /** Eight steps on a word whose low byte is clear only move it down. */
  lemma StepsClearByte(x: bv64)
    requires Low8(x) == 0
    ensures Steps(x, 8) == Down8(x)
  {
    ClearByte(x);
    hide Half, LowBit, Low8, Down8, RightStep;
    var x1 := Half(x);
    var x2 := Half(x1);
    var x3 := Half(x2);
    var x4 := Half(x3);
    var x5 := Half(x4);
    var x6 := Half(x5);
    var x7 := Half(x6);
    StepEven(x);
    StepEven(x1);
    StepEven(x2);
    StepEven(x3);
    StepEven(x4);
    StepEven(x5);
    StepEven(x6);
    StepEven(x7);
    EightSteps(x);
  }

  lemma EightSteps(x: bv64)
    ensures Steps(x, 8) == RightStep(RightStep(RightStep(RightStep(RightStep(RightStep(RightStep(RightStep(x))))))))
  {
    hide RightStep;
    var y := RightStep(RightStep(RightStep(RightStep(x))));
    assert Steps(x, 2) == RightStep(RightStep(x));
    StepsAdd(x, 2, 2);
    StepsAdd(x, 4, 4);
    StepsAdd(y, 2, 2);
    assert Steps(RightStep(RightStep(x)), 2) == y;
    assert Steps(y, 2) == RightStep(RightStep(y));
    assert Steps(RightStep(RightStep(y)), 2) == RightStep(RightStep(RightStep(RightStep(y))));
  }

  lemma ClearByte(x: bv64)
    requires Low8(x) == 0
    ensures var x1 := Half(x); var x2 := Half(x1); var x3 := Half(x2); var x4 := Half(x3);
            var x5 := Half(x4); var x6 := Half(x5); var x7 := Half(x6);
            && LowBit(x) == 0 && LowBit(x1) == 0 && LowBit(x2) == 0 && LowBit(x3) == 0
            && LowBit(x4) == 0 && LowBit(x5) == 0 && LowBit(x6) == 0 && LowBit(x7) == 0
            && Half(x7) == Down8(x)
  {
  }

  /** The table lookup identity: only the low byte needs stepping, the rest moves down. */
  lemma StepsByLowByte(x: bv64)
    ensures Steps(x, 8) == Xor(Steps(Low8(x), 8), Down8(x))
  {
    SplitLow(x);
    hide Xor, Low8, High56, Down8;
    StepsXor(Low8(x), High56(x), 8);
    StepsClearByte(High56(x));
  }

  lemma SplitLow(x: bv64)
    ensures x == Xor(Low8(x), High56(x)) && Low8(High56(x)) == 0 && Down8(High56(x)) == Down8(x)
  {
  }

  /** The reflected register fed with one byte. */
  function ByteStep(crc: bv64, b: bv8): bv64 {
    Steps(Xor(crc, Wide(b)), 8)
  }

  /** The table-driven CRC of a buffer. */
  function Crc(crc: bv64, data: seq<bv8>): bv64
    decreases |data|
  {
    if data == [] then crc else Crc(ByteStep(crc, data[0]), data[1..])
  }

  lemma {:induction false} CrcConcat(crc: bv64, a: seq<bv8>, b: seq<bv8>)
    ensures Crc(crc, a + b) == Crc(Crc(crc, a), b)
    decreases |a|
  {
    hide ByteStep;
    if a == [] {
      assert a + b == b;
    } else {
      assert (a + b)[1..] == a[1..] + b;
      CrcConcat(ByteStep(crc, a[0]), a[1..], b);
    }
  }

  // ----- the reference register, reflected -----

  lemma ReflectXor(x: bv64, y: bv64)
    ensures Reflect(Xor(x, y)) == Xor(Reflect(x), Reflect(y))
  {
  }

  lemma ReflectConstants()
    ensures Reflect(POLY) == REFLECTED_POLY && Reflect(0) == 0
  {
  }

  function Bit(b: bool): bv64 { if b then 1 else 0 }

  function HighSet(x: bv64): bool { x & TOP_BIT != 0 }

  lemma LeftStepIs(crc: bv64, b: bool)
    ensures LeftStep(crc, b) == if HighSet(crc) != b then Xor(Twice(crc), POLY) else Twice(crc)
  {
  }

  lemma ReflectTwice(x: bv64)
    ensures Reflect(Twice(x)) == Half(Reflect(x))
    ensures HighSet(x) == (LowBit(Reflect(x)) != 0)
  {
  }

  lemma AddBit(x: bv64, b: bool)
    ensures Half(Xor(x, Bit(b))) == Half(x)
    ensures (LowBit(Xor(x, Bit(b))) != 0) == ((LowBit(x) != 0) != b)
  {
  }

  /** One input bit of the reference register, seen in the mirror. */
  lemma ReflectStep(crc: bv64, b: bool)
    ensures Reflect(LeftStep(crc, b)) == RightStep(Xor(Reflect(crc), Bit(b)))
  {
    LeftStepIs(crc, b);
    ReflectConstants();
    ReflectXor(Twice(crc), POLY);
    ReflectTwice(crc);
    AddBit(Reflect(crc), b);
    hide Reflect, LeftStep, Xor, Twice, Half, LowBit, HighSet, Bit;
  }

  /** The bits of a byte from number `i` on. */
  function BitsFrom(c: bv8, i: nat): bv64
    requires i <= 8
  {
    Wide(c >> i)
  }

  lemma SplitBit(c: bv8, i: nat)
    requires i < 8
    ensures BitsFrom(c, i) == Xor(Bit(InputBit(c, i)), Twice(BitsFrom(c, i + 1)))
    ensures LowBit(Twice(BitsFrom(c, i + 1))) == 0 && Half(Twice(BitsFrom(c, i + 1))) == BitsFrom(c, i + 1)
  {
    if
    case i == 0 =>
    case i == 1 =>
    case i == 2 =>
    case i == 3 =>
    case i == 4 =>
    case i == 5 =>
    case i == 6 =>
    case i == 7 =>
  }

  lemma {:induction false} ReflectBits(crc: bv64, c: bv8, i: nat)
    requires i <= 8
    ensures Reflect(LeftBits(crc, c, i)) == Steps(Xor(Reflect(crc), BitsFrom(c, i)), 8 - i)
    decreases 8 - i
  {
    if i == 8 {
      NoBits(c);
      XorZero(Reflect(crc));
      hide Xor, BitsFrom, Reflect;
    } else {
      hide Xor, BitsFrom, Reflect, LeftStep, Twice, Half, LowBit, Bit, InputBit, RightStep;
      var b, n := InputBit(c, i), BitsFrom(c, i + 1);
      var x := Reflect(crc);
      ReflectBits(LeftStep(crc, b), c, i + 1);
      ReflectStep(crc, b);
      SplitBit(c, i);
      StepEven(Twice(n));
      StepXor(Xor(x, Bit(b)), Twice(n));
      XorAssoc(x, Bit(b), Twice(n));
    }
  }

  lemma NoBits(c: bv8)
    ensures BitsFrom(c, 8) == 0
  {
  }

  lemma ReflectByte(crc: bv64, c: bv8)
    ensures Reflect(LeftBits(crc, c, 0)) == ByteStep(Reflect(crc), c)
  {
    AllBits(c);
    hide Xor, BitsFrom, Reflect, Steps, Wide;
    ReflectBits(crc, c, 0);
  }

  lemma AllBits(c: bv8)
    ensures BitsFrom(c, 0) == Wide(c)
  {
  }

  /** The table CRC is the reflection of the bit-by-bit register, for every buffer. */
  lemma {:induction false} CrcIsBitwise(crc: bv64, data: seq<bv8>)
    ensures BitwiseCrc(crc, data) == Crc(Reflect(crc), data)
    decreases |data|
  {
    hide Reflect, LeftBits, ByteStep;
    if data != [] {
      ReflectByte(crc, data[0]);
      CrcIsBitwise(LeftBits(crc, data[0], 0), data[1..]);
    }
  }

  /** Started from zero, which reflects to itself. */
  lemma CrcFromZero(data: seq<bv8>)
    ensures BitwiseCrc(0, data) == Crc(0, data)
  {
    ReflectConstants();
    hide Reflect;
    CrcIsBitwise(0, data);
  }

  // ----- the lookup tables -----

  /** Row `k` holds every byte followed by `k` zero bytes. */
  function Entry(k: nat, n: nat): bv64
    requires n < 256
  {
    Steps(Wide(n as bv8), 8 * (k + 1))
  }

  /** The low byte, as an index into a row. */
  function Index(x: bv64): (n: nat)
    ensures n < 256
  {
    LowByte(x) as int
  }

  function LowByte(x: bv64): bv8 { (x & 0xff) as bv8 }

  function Down(x: bv64, s: bv64): bv64
    requires s <= 64
  {
    x >> s
  }

  lemma IndexIsLow(x: bv64)
    ensures Wide(Index(x) as bv8) == Low8(x)
  {
    LowByteWide(x);
    ByteNumber(LowByte(x));
    hide LowByte, Wide, Low8;
  }

  lemma LowByteWide(x: bv64)
    ensures Wide(LowByte(x)) == Low8(x)
  {
  }

  lemma ByteNumber(b: bv8)
    ensures (b as int) as bv8 == b
  {
  }

  lemma EntryAt(k: nat, x: bv64)
    ensures Entry(k, Index(x)) == Steps(Low8(x), 8 * (k + 1))
  {
    IndexIsLow(x);
    hide Wide, Index, Low8, Steps;
  }

  lemma ByteEntry(n: nat)
    requires n < 256
    ensures BitwiseCrc(0, [n as bv8]) == Entry(0, n)
  {
    hide Xor, Steps, LeftBits, Reflect;
    var b := n as bv8;
    CrcFromZero([b]);
    assert [b][1..] == [];
    XorZero(Wide(b));
  }

  /** One more zero byte after the message. */
  lemma NextEntry(k: nat, n: nat)
    requires n < 256
    ensures Entry(k + 1, n) == Xor(Entry(0, Index(Entry(k, n))), Down8(Entry(k, n)))
  {
    hide Xor, Wide, Index, Low8, Down8;
    StepsAdd(Wide(n as bv8), 8 * (k + 1), 8);
    assert 8 * (k + 1) + 8 == 8 * (k + 1 + 1);
    StepsByLowByte(Entry(k, n));
    EntryAt(0, Entry(k, n));
  }

  /** The same entry in reversed byte order. */
  function Flip(k: nat, n: nat): bv64
    requires n < 256
  {
    Rev8(Entry(k, n))
  }

  predicate Shaped(t: array2<bv64>) {
    t.Length0 == 8 && t.Length1 == 256
  }

  ghost predicate LittleTable(t: array2<bv64>)
    reads t
  {
    && Shaped(t)
    && forall k, n :: 0 <= k < 8 && 0 <= n < 256 ==> t[k, n] == Entry(k, n)
  }

  ghost predicate BigTable(t: array2<bv64>)
    reads t
  {
    && Shaped(t)
    && forall k, n :: 0 <= k < 8 && 0 <= n < 256 ==> t[k, n] == Flip(k, n)
  }

  /** crcspeed64little_init with _crc64 as the generator. */
  method LittleInit(t: array2<bv64>)
    requires Shaped(t)
    modifies t
    ensures LittleTable(t)
  {
    hide Entry, Xor, Index, Down8, BitwiseCrc;
    for n := 0 to 256
      invariant forall m :: 0 <= m < n ==> t[0, m] == Entry(0, m)
    {
      t[0, n] := Crc64Bitwise(0, [n as bv8]);
      ByteEntry(n);
    }
    for n := 0 to 256
      invariant forall m :: 0 <= m < 256 ==> t[0, m] == Entry(0, m)
      invariant forall k, m :: 0 <= k < 8 && 0 <= m < n ==> t[k, m] == Entry(k, m)
    {
      var crc := t[0, n];
      for k := 1 to 8
        invariant crc == Entry(k - 1, n)
        invariant forall m :: 0 <= m < 256 ==> t[0, m] == Entry(0, m)
        invariant forall j, m :: 0 <= j < 8 && 0 <= m < n ==> t[j, m] == Entry(j, m)
        invariant forall j :: 0 <= j < k ==> t[j, n] == Entry(j, n)
      {
        NextEntry(k - 1, n);
        crc := Xor(t[0, Index(crc)], Down8(crc));
        t[k, n] := crc;
      }
    }
  }

  /** crcspeed64big_init */
  method BigInit(t: array2<bv64>)
    requires Shaped(t)
    modifies t
    ensures BigTable(t)
  {
    hide Entry, Rev8;
    LittleInit(t);
    for k := 0 to 8
      invariant forall j, m :: 0 <= j < k && 0 <= m < 256 ==> t[j, m] == Flip(j, m)
      invariant forall j, m :: k <= j < 8 && 0 <= m < 256 ==> t[j, m] == Entry(j, m)
    {
      for n := 0 to 256
        invariant forall j, m :: 0 <= j < k && 0 <= m < 256 ==> t[j, m] == Flip(j, m)
        invariant forall j, m :: k < j < 8 && 0 <= m < 256 ==> t[j, m] == Entry(j, m)
        invariant forall m :: 0 <= m < n ==> t[k, m] == Flip(k, m)
        invariant forall m :: n <= m < 256 ==> t[k, m] == Entry(k, m)
      {
        t[k, n] := Rev8(t[k, n]);
      }
    }
  }

  // ----- one byte through row 0 -----

  lemma LowByteStep(crc: bv64, b: bv8)
    ensures ByteStep(crc, b) == Xor(Entry(0, Index(Xor(crc, Wide(b)))), Down8(crc))
  {
    DownByte(crc, b);
    hide Xor, Steps, Wide, Index, Down8, Low8;
    StepsByLowByte(Xor(crc, Wide(b)));
    EntryAt(0, Xor(crc, Wide(b)));
  }

  lemma DownByte(crc: bv64, b: bv8)
    ensures Down8(Xor(crc, Wide(b))) == Down8(crc)
  {
  }

  // ----- eight bytes through eight rows -----

  /** Bytes as a little-endian number. */
  function Word(bs: seq<bv8>): bv64
    decreases |bs|
  {
    if bs == [] then 0 else Xor(Wide(bs[0]), Up8(Word(bs[1..])))
  }

  /** `x` has at most `m` bytes. */
  predicate Fits(x: bv64, m: nat)
    requires m <= 7
  {
    match m
    case 0 => x == 0
    case 1 => x <= 0xff
    case 2 => x <= 0xffff
    case 3 => x <= 0xffffff
    case 4 => x <= 0xffffffff
    case 5 => x <= 0xffffffffff
    case 6 => x <= 0xffffffffffff
    case 7 => x <= 0xffffffffffffff
  }

  lemma FitsNext(b: bv8, x: bv64, m: nat)
    requires m < 7 && Fits(x, m)
    ensures Fits(Xor(Wide(b), Up8(x)), m + 1)
  {
    if
    case m == 0 =>
    case m == 1 =>
    case m == 2 =>
    case m == 3 =>
    case m == 4 =>
    case m == 5 =>
    case m == 6 =>
  }

  lemma {:induction false} WordFits(bs: seq<bv8>)
    requires |bs| <= 7
    ensures Fits(Word(bs), |bs|)
    decreases |bs|
  {
    if bs != [] {
      WordFits(bs[1..]);
      FitsNext(bs[0], Word(bs[1..]), |bs| - 1);
    }
    hide Xor, Wide, Up8;
  }

  lemma FitsSeven(x: bv64, m: nat)
    requires m <= 7 && Fits(x, m)
    ensures Fits(x, 7)
  {
  }

  lemma FitsRoom(x: bv64)
    requires Fits(x, 7)
    ensures Down8(Up8(x)) == x && Low8(Up8(x)) == 0
  {
  }

  /** Up to eight bytes may be added to the register all at once. */
  lemma {:induction false} CrcOfWord(crc: bv64, bs: seq<bv8>)
    requires |bs| <= 8
    ensures Crc(crc, bs) == Steps(Xor(crc, Word(bs)), 8 * |bs|)
    decreases |bs|
  {
    hide Xor, Wide, Up8, Low8, Down8, Fits, Steps;
    if bs == [] {
      XorZero(crc);
      NoSteps(crc);
    } else {
      var w := Word(bs[1..]);
      var fed := Xor(crc, Wide(bs[0]));
      WordFits(bs[1..]);
      FitsSeven(w, |bs| - 1);
      FitsRoom(w);
      StepsClearByte(Up8(w));
      StepsXor(fed, Up8(w), 8);
      XorAssoc(crc, Wide(bs[0]), Up8(w));
      CrcOfWord(ByteStep(crc, bs[0]), bs[1..]);
      StepsAdd(Xor(crc, Word(bs)), 8, 8 * (|bs| - 1));
    }
  }

  lemma NoSteps(x: bv64)
    ensures Steps(x, 0) == x
  {
  }

  /** Eight bytes read as one machine word, the least significant first. */
  function Load(b0: bv8, b1: bv8, b2: bv8, b3: bv8, b4: bv8, b5: bv8, b6: bv8, b7: bv8): bv64 {
    (b0 as bv64) | ((b1 as bv64) << 8) | ((b2 as bv64) << 16) | ((b3 as bv64) << 24)
    | ((b4 as bv64) << 32) | ((b5 as bv64) << 40) | ((b6 as bv64) << 48) | ((b7 as bv64) << 56)
  }

  function Cat(b: bv8, x: bv64): bv64 { Xor(Wide(b), Up8(x)) }

  lemma LoadNested(b0: bv8, b1: bv8, b2: bv8, b3: bv8, b4: bv8, b5: bv8, b6: bv8, b7: bv8)
    ensures Load(b0, b1, b2, b3, b4, b5, b6, b7)
         == Cat(b0, Cat(b1, Cat(b2, Cat(b3, Cat(b4, Cat(b5, Cat(b6, Cat(b7, 0))))))))
  {
  }

  lemma WordCons(b: bv8, bs: seq<bv8>)
    ensures Word([b] + bs) == Cat(b, Word(bs))
  {
    assert ([b] + bs)[1..] == bs;
    hide Xor, Wide, Up8;
  }

  lemma LoadIsWord(bs: seq<bv8>)
    requires |bs| == 8
    ensures Load(bs[0], bs[1], bs[2], bs[3], bs[4], bs[5], bs[6], bs[7]) == Word(bs)
  {
    LoadNested(bs[0], bs[1], bs[2], bs[3], bs[4], bs[5], bs[6], bs[7]);
    hide Load, Cat, Word;
    NoWord();
    forall i | 0 <= i < 8 ensures Word(bs[i..]) == Cat(bs[i], Word(bs[i + 1..])) {
      assert bs[i..] == [bs[i]] + bs[i + 1..];
      WordCons(bs[i], bs[i + 1..]);
    }
    assert bs[8..] == [] && bs[0..] == bs;
    var w4 := Word(bs[4..]);
    assert w4 == Cat(bs[4], Cat(bs[5], Cat(bs[6], Cat(bs[7], 0))));
    assert Word(bs) == Cat(bs[0], Cat(bs[1], Cat(bs[2], Cat(bs[3], w4))));
  }

  lemma NoWord()
    ensures Word([]) == 0
  {
  }

  /** The lowest byte through its own row, the rest moved down one byte. */
  lemma Peel(x: bv64, m: nat)
    requires m >= 1
    ensures Steps(x, 8 * m) == Xor(Entry(m - 1, Index(x)), Steps(Down8(x), 8 * (m - 1)))
  {
    hide Xor, Steps, Index, Low8, Down8, Entry;
    var rest := 8 * (m - 1);
    StepsAdd(x, 8, rest);
    StepsByLowByte(x);
    StepsXor(Steps(Low8(x), 8), Down8(x), rest);
    StepsAdd(Low8(x), 8, rest);
    EntryAt(m - 1, x);
  }

  lemma PeelInto(acc: bv64, x: bv64, m: nat)
    requires m >= 1
    ensures Xor(acc, Steps(x, 8 * m))
         == Xor(Xor(acc, Entry(m - 1, Index(x))), Steps(Down8(x), 8 * (m - 1)))
  {
    hide Xor, Steps, Index, Down8, Entry;
    Peel(x, m);
    XorAssoc(acc, Entry(m - 1, Index(x)), Steps(Down8(x), 8 * (m - 1)));
  }

  lemma PeelFrom(x: bv64, m: nat)
    requires m >= 1
    ensures Steps(x, 8 * m) == Xor(Steps(Down8(x), 8 * (m - 1)), Entry(m - 1, Index(x)))
  {
    hide Xor, Steps, Index, Down8, Entry;
    Peel(x, m);
    XorSwap(Entry(m - 1, Index(x)), Steps(Down8(x), 8 * (m - 1)));
  }

  lemma Downs(x: bv64)
    ensures Down(x, 8) == Down8(x) && Down(x, 16) == Down8(Down(x, 8))
    ensures Down(x, 24) == Down8(Down(x, 16)) && Down(x, 32) == Down8(Down(x, 24))
    ensures Down(x, 40) == Down8(Down(x, 32)) && Down(x, 48) == Down8(Down(x, 40))
    ensures Down(x, 56) == Down8(Down(x, 48)) && Down8(Down(x, 56)) == 0
  {
    hide Down, Down8;
    DownAll(x);
    DownAgain(x, 8);
    DownAgain(x, 16);
    DownAgain(x, 24);
    DownAgain(x, 32);
    DownAgain(x, 40);
    DownAgain(x, 48);
  }

  lemma DownAgain(x: bv64, s: bv64)
    requires s <= 56
    ensures Down(x, s + 8) == Down8(Down(x, s))
  {
  }

  lemma DownAll(x: bv64)
    ensures Down(x, 8) == Down8(x) && Down8(Down(x, 56)) == 0
  {
  }

  /** The eight lookups of the little-endian word loop, in its order. */
  function SliceUp(x: bv64): bv64 {
    Xor(Xor(Xor(Xor(Xor(Xor(Xor(
      Entry(7, Index(x)),
      Entry(6, Index(Down(x, 8)))),
      Entry(5, Index(Down(x, 16)))),
      Entry(4, Index(Down(x, 24)))),
      Entry(3, Index(Down(x, 32)))),
      Entry(2, Index(Down(x, 40)))),
      Entry(1, Index(Down(x, 48)))),
      Entry(0, Index(Down(x, 56))))
  }

  /** The same lookups from the other end. */
  function SliceDown(x: bv64): bv64 {
    Xor(Xor(Xor(Xor(Xor(Xor(Xor(
      Entry(0, Index(Down(x, 56))),
      Entry(1, Index(Down(x, 48)))),
      Entry(2, Index(Down(x, 40)))),
      Entry(3, Index(Down(x, 32)))),
      Entry(4, Index(Down(x, 24)))),
      Entry(5, Index(Down(x, 16)))),
      Entry(6, Index(Down(x, 8)))),
      Entry(7, Index(x)))
  }

  lemma SliceUpSteps(x: bv64)
    ensures SliceUp(x) == Steps(x, 64)
  {
    hide Xor, Steps, Index, Down8, Down, Entry;
    Downs(x);
    NoSteps(0);
    Peel(x, 8);
    var a7 := Entry(7, Index(x));
    PeelInto(a7, Down(x, 8), 7);
    var a6 := Xor(a7, Entry(6, Index(Down(x, 8))));
    PeelInto(a6, Down(x, 16), 6);
    var a5 := Xor(a6, Entry(5, Index(Down(x, 16))));
    PeelInto(a5, Down(x, 24), 5);
    var a4 := Xor(a5, Entry(4, Index(Down(x, 24))));
    PeelInto(a4, Down(x, 32), 4);
    var a3 := Xor(a4, Entry(3, Index(Down(x, 32))));
    PeelInto(a3, Down(x, 40), 3);
    var a2 := Xor(a3, Entry(2, Index(Down(x, 40))));
    PeelInto(a2, Down(x, 48), 2);
    var a1 := Xor(a2, Entry(1, Index(Down(x, 48))));
    PeelInto(a1, Down(x, 56), 1);
    XorZero(Xor(a1, Entry(0, Index(Down(x, 56)))));
  }

  lemma SliceDownSteps(x: bv64)
    ensures SliceDown(x) == Steps(x, 64)
  {
    hide Xor, Steps, Index, Down8, Down, Entry;
    Downs(x);
    NoSteps(0);
    PeelFrom(Down(x, 56), 1);
    XorZero(Entry(0, Index(Down(x, 56))));
    PeelFrom(Down(x, 48), 2);
    PeelFrom(Down(x, 40), 3);
    PeelFrom(Down(x, 32), 4);
    PeelFrom(Down(x, 24), 5);
    PeelFrom(Down(x, 16), 6);
    PeelFrom(Down(x, 8), 7);
    PeelFrom(x, 8);
  }

  /** Slicing by eight is eight single bytes. */
  lemma SliceIsEightBytes(crc: bv64, bs: seq<bv8>, word: bv64)
    requires |bs| == 8 && word == Word(bs)
    ensures SliceUp(Xor(crc, word)) == Crc(crc, bs) == SliceDown(Xor(crc, word))
  {
    hide SliceUp, SliceDown, Xor, Crc, Word, Steps;
    CrcOfWord(crc, bs);
    SliceUpSteps(Xor(crc, word));
    SliceDownSteps(Xor(crc, word));
  }

  lemma CrcSplit(crc: bv64, data: seq<bv8>, i: nat, j: nat)
    requires i <= j <= |data|
    ensures Crc(crc, data[i..]) == Crc(Crc(crc, data[i..j]), data[j..])
  {
    hide Crc;
    CrcConcat(crc, data[i..j], data[j..]);
    assert data[i..] == data[i..j] + data[j..];
  }

  lemma CrcByte(crc: bv64, data: seq<bv8>, i: nat)
    requires i < |data|
    ensures Crc(crc, data[i..]) == Crc(ByteStep(crc, data[i]), data[i + 1..])
  {
    hide ByteStep;
    assert data[i..][1..] == data[i + 1..];
  }

  /** Single bytes and whole words, as the little-endian loops take them. */
  lemma LittleByte(crc: bv64, buf: seq<bv8>, i: nat)
    requires i < |buf|
    ensures Crc(crc, buf[i..])
         == Crc(Xor(Entry(0, Index(Xor(crc, Wide(buf[i])))), Down8(crc)), buf[i + 1..])
  {
    hide Crc, ByteStep, Entry, Index, Xor, Wide, Down8;
    CrcByte(crc, buf, i);
    LowByteStep(crc, buf[i]);
  }

  lemma LittleWord(crc: bv64, buf: seq<bv8>, i: nat)
    requires i + 8 <= |buf|
    ensures Crc(crc, buf[i..])
         == Crc(SliceUp(Xor(crc, Load(buf[i], buf[i + 1], buf[i + 2], buf[i + 3],
                                      buf[i + 4], buf[i + 5], buf[i + 6], buf[i + 7]))), buf[i + 8..])
  {
    hide Crc, SliceUp, SliceDown, Xor, Load, Word;
    var bs := buf[i..i + 8];
    CrcSplit(crc, buf, i, i + 8);
    LoadIsWord(bs);
    SliceIsEightBytes(crc, bs, Word(bs));
  }

  lemma CrcNone(crc: bv64, data: seq<bv8>)
    ensures Crc(crc, data[|data|..]) == crc && data[0..] == data
  {
  }

  /**
   crcspeed64little: single bytes up to an aligned address, then words, then
   the remaining bytes. `addr` is the address of the buffer.
   */
  method CrcLittle(t: array2<bv64>, start: bv64, buf: seq<bv8>, addr: nat) returns (crc: bv64)
    requires LittleTable(t)
    ensures crc == Crc(start, buf)
  {
    hide Crc, ByteStep, Entry, Index, Xor, Wide, Down8, Down, Load;
    crc := start;
    var next := 0;
    CrcNone(start, buf);
    while next < |buf| && (addr + next) % 8 != 0
      invariant next <= |buf|
      invariant Crc(crc, buf[next..]) == Crc(start, buf)
    {
      LittleByte(crc, buf, next);
      crc := Xor(t[0, Index(Xor(crc, Wide(buf[next])))], Down8(crc));
      next := next + 1;
    }
    while |buf| - next >= 8
      invariant next <= |buf|
      invariant Crc(crc, buf[next..]) == Crc(start, buf)
    {
      LittleWord(crc, buf, next);
      crc := Xor(crc, Load(buf[next], buf[next + 1], buf[next + 2], buf[next + 3],
                           buf[next + 4], buf[next + 5], buf[next + 6], buf[next + 7]));
      crc := Xor(Xor(Xor(Xor(Xor(Xor(Xor(
        t[7, Index(crc)],
        t[6, Index(Down(crc, 8))]),
        t[5, Index(Down(crc, 16))]),
        t[4, Index(Down(crc, 24))]),
        t[3, Index(Down(crc, 32))]),
        t[2, Index(Down(crc, 40))]),
        t[1, Index(Down(crc, 48))]),
        t[0, Index(Down(crc, 56))]);
      next := next + 8;
    }
    while next < |buf|
      invariant next <= |buf|
      invariant Crc(crc, buf[next..]) == Crc(start, buf)
    {
      LittleByte(crc, buf, next);
      crc := Xor(t[0, Index(Xor(crc, Wide(buf[next])))], Down8(crc));
      next := next + 1;
    }
    CrcNone(crc, buf);
  }

  // ----- the other byte order -----

  /** rev8 */
  function Rev8(x: bv64): bv64 {
    var a := ((x >> 8) & 0xff00ff00ff00ff) | ((x & 0xff00ff00ff00ff) << 8);
    var b := ((a >> 16) & 0xffff0000ffff) | ((a & 0xffff0000ffff) << 16);
    (b >> 32) | (b << 32)
  }

  lemma Rev8Twice(x: bv64)
    ensures Rev8(Rev8(x)) == x
  {
  }

  lemma Rev8Xor(x: bv64, y: bv64)
    ensures Rev8(Xor(x, y)) == Xor(Rev8(x), Rev8(y))
  {
  }

  lemma Rev8Down(x: bv64)
    ensures Rev8(Down8(x)) == Up8(Rev8(x))
  {
    Rev8ByBytes(x);
    Rev8ByBytes(Down8(x));
    BytesDown(x);
    hide Rev8, Reversed;
  }

  function Reversed(x: bv64): bv64 {
    ((x >> 56) & 0xff) | (((x >> 48) & 0xff) << 8) | (((x >> 40) & 0xff) << 16)
    | (((x >> 32) & 0xff) << 24) | (((x >> 24) & 0xff) << 32) | (((x >> 16) & 0xff) << 40)
    | (((x >> 8) & 0xff) << 48) | ((x & 0xff) << 56)
  }

  lemma Rev8ByBytes(x: bv64)
    ensures Rev8(x) == Reversed(x)
  {
  }

  lemma BytesDown(x: bv64)
    ensures Reversed(x >> 8) == Reversed(x) << 8
  {
  }

  lemma Rev8Top(x: bv64, b: bv8)
    ensures Index(Xor(Down(Rev8(x), 56), Wide(b))) == Index(Xor(x, Wide(b)))
  {
  }

  /** A big-endian machine reads the same bytes the other way round. */
  lemma Rev8Load(b0: bv8, b1: bv8, b2: bv8, b3: bv8, b4: bv8, b5: bv8, b6: bv8, b7: bv8)
    ensures Load(b7, b6, b5, b4, b3, b2, b1, b0) == Rev8(Load(b0, b1, b2, b3, b4, b5, b6, b7))
  {
  }

  lemma Rev8Bytes(x: bv64)
    ensures Index(Rev8(x)) == Index(Down(x, 56))
    ensures Index(Down(Rev8(x), 8)) == Index(Down(x, 48))
    ensures Index(Down(Rev8(x), 16)) == Index(Down(x, 40))
    ensures Index(Down(Rev8(x), 24)) == Index(Down(x, 32))
    ensures Index(Down(Rev8(x), 32)) == Index(Down(x, 24))
    ensures Index(Down(Rev8(x), 40)) == Index(Down(x, 16))
    ensures Index(Down(Rev8(x), 48)) == Index(Down(x, 8))
    ensures Index(Down(Rev8(x), 56)) == Index(x)
  {
  }

  lemma HighByteStep(crc: bv64, b: bv8)
    ensures Rev8(ByteStep(crc, b))
         == Xor(Rev8(Entry(0, Index(Xor(Down(Rev8(crc), 56), Wide(b))))), Up8(Rev8(crc)))
  {
    hide ByteStep, Entry, Index, Xor, Wide, Down8, Down, Up8, Rev8;
    LowByteStep(crc, b);
    Rev8Top(crc, b);
    Rev8Xor(Entry(0, Index(Xor(crc, Wide(b)))), Down8(crc));
    Rev8Down(crc);
  }

  /** The eight lookups of the big-endian word loop, in its order. */
  function SliceBig(y: bv64): bv64 {
    Xor(Xor(Xor(Xor(Xor(Xor(Xor(
      Flip(0, Index(y)),
      Flip(1, Index(Down(y, 8)))),
      Flip(2, Index(Down(y, 16)))),
      Flip(3, Index(Down(y, 24)))),
      Flip(4, Index(Down(y, 32)))),
      Flip(5, Index(Down(y, 40)))),
      Flip(6, Index(Down(y, 48)))),
      Flip(7, Index(Down(y, 56))))
  }

  lemma SliceBigIsDown(x: bv64)
    ensures SliceBig(Rev8(x)) == Rev8(SliceDown(x))
  {
    hide Entry, Index, Xor, Down, Rev8;
    Rev8Bytes(x);
    var e0, e1 := Entry(0, Index(Down(x, 56))), Entry(1, Index(Down(x, 48)));
    var e2, e3 := Entry(2, Index(Down(x, 40))), Entry(3, Index(Down(x, 32)));
    var e4, e5 := Entry(4, Index(Down(x, 24))), Entry(5, Index(Down(x, 16)));
    var e6, e7 := Entry(6, Index(Down(x, 8))), Entry(7, Index(x));
    Rev8Xor(e0, e1);
    var a1 := Xor(e0, e1);
    Rev8Xor(a1, e2);
    var a2 := Xor(a1, e2);
    Rev8Xor(a2, e3);
    var a3 := Xor(a2, e3);
    Rev8Xor(a3, e4);
    var a4 := Xor(a3, e4);
    Rev8Xor(a4, e5);
    var a5 := Xor(a4, e5);
    Rev8Xor(a5, e6);
    Rev8Xor(Xor(a5, e6), e7);
  }

  lemma EightBig(crc: bv64, bs: seq<bv8>)
    requires |bs| == 8
    ensures SliceBig(Xor(crc, Load(bs[7], bs[6], bs[5], bs[4], bs[3], bs[2], bs[1], bs[0])))
         == Rev8(Crc(Rev8(crc), bs))
  {
    hide SliceBig, SliceUp, SliceDown, Xor, Crc, Word, Load, Rev8;
    var w := Word(bs);
    LoadIsWord(bs);
    Rev8Load(bs[0], bs[1], bs[2], bs[3], bs[4], bs[5], bs[6], bs[7]);
    Rev8Twice(crc);
    Rev8Xor(Rev8(crc), w);
    SliceIsEightBytes(Rev8(crc), bs, w);
    SliceBigIsDown(Xor(Rev8(crc), w));
  }

  /** Single bytes and whole words, as the big-endian loops take them. */
  lemma BigByte(crc: bv64, buf: seq<bv8>, i: nat)
    requires i < |buf|
    ensures Crc(Rev8(crc), buf[i..])
         == Crc(Rev8(Xor(Flip(0, Index(Xor(Down(crc, 56), Wide(buf[i])))), Up8(crc))), buf[i + 1..])
  {
    hide Crc, ByteStep, Entry, Index, Xor, Wide, Up8, Down, Rev8;
    CrcByte(Rev8(crc), buf, i);
    HighByteStep(Rev8(crc), buf[i]);
    Rev8Twice(crc);
    Rev8Twice(ByteStep(Rev8(crc), buf[i]));
  }

  lemma BigWord(crc: bv64, buf: seq<bv8>, i: nat)
    requires i + 8 <= |buf|
    ensures Crc(Rev8(crc), buf[i..])
         == Crc(Rev8(SliceBig(Xor(crc, Load(buf[i + 7], buf[i + 6], buf[i + 5], buf[i + 4],
                                            buf[i + 3], buf[i + 2], buf[i + 1], buf[i])))), buf[i + 8..])
  {
    hide Crc, SliceBig, Xor, Load, Rev8;
    var bs := buf[i..i + 8];
    CrcSplit(Rev8(crc), buf, i, i + 8);
    EightBig(crc, bs);
    Rev8Twice(Crc(Rev8(crc), bs));
  }

  /** crcspeed64big: the register and the tables both in reversed byte order. */
  method CrcBig(t: array2<bv64>, start: bv64, buf: seq<bv8>, addr: nat) returns (r: bv64)
    requires BigTable(t)
    ensures r == Crc(start, buf)
  {
    hide Crc, ByteStep, Entry, Index, Xor, Wide, Up8, Down, Load, Rev8;
    var crc := Rev8(start);
    Rev8Twice(start);
    var next := 0;
    CrcNone(start, buf);
    while next < |buf| && (addr + next) % 8 != 0
      invariant next <= |buf|
      invariant Crc(Rev8(crc), buf[next..]) == Crc(start, buf)
    {
      BigByte(crc, buf, next);
      crc := Xor(t[0, Index(Xor(Down(crc, 56), Wide(buf[next])))], Up8(crc));
      next := next + 1;
    }
    while |buf| - next >= 8
      invariant next <= |buf|
      invariant Crc(Rev8(crc), buf[next..]) == Crc(start, buf)
    {
      BigWord(crc, buf, next);
      crc := Xor(crc, Load(buf[next + 7], buf[next + 6], buf[next + 5], buf[next + 4],
                           buf[next + 3], buf[next + 2], buf[next + 1], buf[next]));
      crc := Xor(Xor(Xor(Xor(Xor(Xor(Xor(
        t[0, Index(crc)],
        t[1, Index(Down(crc, 8))]),
        t[2, Index(Down(crc, 16))]),
        t[3, Index(Down(crc, 24))]),
        t[4, Index(Down(crc, 32))]),
        t[5, Index(Down(crc, 40))]),
        t[6, Index(Down(crc, 48))]),
        t[7, Index(Down(crc, 56))]);
      next := next + 8;
    }
    while next < |buf|
      invariant next <= |buf|
      invariant Crc(Rev8(crc), buf[next..]) == Crc(start, buf)
    {
      BigByte(crc, buf, next);
      crc := Xor(t[0, Index(Xor(Down(crc, 56), Wide(buf[next])))], Up8(crc));
      next := next + 1;
    }
    CrcNone(Rev8(crc), buf);
    r := Rev8(crc);
  }

  /** crc64_init and crc64 on a machine of either byte order. */
  method CrcNative(little: bool, start: bv64, buf: seq<bv8>, addr: nat) returns (crc: bv64)
    ensures crc == Crc(start, buf)
    ensures start == 0 ==> crc == BitwiseCrc(0, buf)
  {
    hide Crc, BitwiseCrc;
    var t := new bv64[8, 256];
    if little {
      LittleInit(t);
      crc := CrcLittle(t, start, buf, addr);
    } else {
      BigInit(t);
      crc := CrcBig(t, start, buf, addr);
    }
    CrcFromZero(buf);
  }

  // ----- what the checksum detects -----

  function TopBit(x: bv64): bv64 { x & TOP_BIT }

  lemma StepTop(x: bv64)
    ensures (TopBit(RightStep(x)) != 0) == (LowBit(x) != 0)
  {
  }

  lemma HalfAndLow(x: bv64, y: bv64)
    requires Half(x) == Half(y) && (LowBit(x) != 0) == (LowBit(y) != 0)
    ensures x == y
  {
  }

  lemma UndoPoly(h: bv64)
    ensures Xor(Xor(h, REFLECTED_POLY), REFLECTED_POLY) == h
  {
  }

  /** No two registers meet after a step. */
  lemma StepInjective(x: bv64, y: bv64)
    requires RightStep(x) == RightStep(y)
    ensures x == y
  {
    hide Half, LowBit, Xor, TopBit;
    StepTop(x);
    StepTop(y);
    UndoPoly(Half(x));
    UndoPoly(Half(y));
    HalfAndLow(x, y);
  }

  lemma {:induction false} StepsInjective(x: bv64, y: bv64, n: nat)
    requires Steps(x, n) == Steps(y, n)
    ensures x == y
    decreases n
  {
    hide RightStep;
    if n > 0 {
      StepsInjective(RightStep(x), RightStep(y), n - 1);
      StepInjective(x, y);
    }
  }

  lemma XorInjective(x: bv64, y: bv64, z: bv64)
    requires Xor(x, z) == Xor(y, z)
    ensures x == y
  {
  }

  lemma {:induction false} CrcInjective(x: bv64, y: bv64, data: seq<bv8>)
    requires Crc(x, data) == Crc(y, data)
    ensures x == y
    decreases |data|
  {
    hide Xor, Steps, Wide;
    if data != [] {
      var b := Wide(data[0]);
      CrcInjective(ByteStep(x, data[0]), ByteStep(y, data[0]), data[1..]);
      StepsInjective(Xor(x, b), Xor(y, b), 8);
      XorInjective(x, y, b);
    }
  }

  lemma CatInjective(b: bv8, x: bv64, c: bv8, y: bv64)
    requires Fits(x, 7) && Fits(y, 7) && Cat(b, x) == Cat(c, y)
    ensures b == c && x == y
  {
  }

  lemma {:induction false} WordInjective(u: seq<bv8>, v: seq<bv8>)
    requires |u| == |v| <= 8 && Word(u) == Word(v)
    ensures u == v
    decreases |u|
  {
    hide Fits, Xor, Wide, Up8;
    if u != [] {
      WordFits(u[1..]);
      WordFits(v[1..]);
      FitsSeven(Word(u[1..]), |u| - 1);
      FitsSeven(Word(v[1..]), |u| - 1);
      CatInjective(u[0], Word(u[1..]), v[0], Word(v[1..]));
      WordInjective(u[1..], v[1..]);
      assert u == [u[0]] + u[1..] && v == [v[0]] + v[1..];
    }
  }

  /** A change confined to eight consecutive bytes never goes unnoticed. */
  lemma DetectsBurst(crc: bv64, before: seq<bv8>, u: seq<bv8>, v: seq<bv8>, after: seq<bv8>)
    requires |u| == |v| <= 8 && u != v
    ensures Crc(crc, before + u + after) != Crc(crc, before + v + after)
  {
    hide Crc, Xor, Word, Steps;
    var start := Crc(crc, before);
    CrcConcat(crc, before + u, after);
    CrcConcat(crc, before + v, after);
    CrcConcat(crc, before, u);
    CrcConcat(crc, before, v);
    if Crc(crc, before + u + after) == Crc(crc, before + v + after) {
      CrcInjective(Crc(start, u), Crc(start, v), after);
      CrcOfWord(start, u);
      CrcOfWord(start, v);
      StepsInjective(Xor(start, Word(u)), Xor(start, Word(v)), 8 * |u|);
      XorSwap(start, Word(u));
      XorSwap(start, Word(v));
      XorInjective(Word(u), Word(v), start);
      WordInjective(u, v);
      assert false;
    }
  }

  /** _crc64 reflects its result but not its start, so its own calls do not chain. */
  lemma BitwiseChains(a: seq<bv8>, b: seq<bv8>)
    ensures BitwiseCrc(BitwiseCrc(0, a), b) == BitwiseCrc(0, a + b)
       <==> Reflect(BitwiseCrc(0, a)) == BitwiseCrc(0, a)
  {
    hide Crc, BitwiseCrc, Reflect;
    CrcFromZero(a);
    CrcFromZero(a + b);
    CrcIsBitwise(BitwiseCrc(0, a), b);
    CrcConcat(0, a, b);
    var r := BitwiseCrc(0, a);
    if Crc(Reflect(r), b) == Crc(r, b) {
      CrcInjective(Reflect(r), r, b);
    }
  }

  /** One byte already has a result that is not its own reflection. */
  lemma ChainBreaks(b: seq<bv8>)
    ensures BitwiseCrc(BitwiseCrc(0, [1]), b) != BitwiseCrc(0, [1] + b)
  {
    OneByte();
    BitwiseChains([1], b);
  }

  lemma OneByte()
    ensures Reflect(BitwiseCrc(0, [1])) != BitwiseCrc(0, [1])
  {
    assert [1 as bv8][1..] == [];
    var r1 := LeftStep(0, InputBit(1, 0));
    assert r1 == POLY;
    var r2 := LeftStep(r1, InputBit(1, 1));
    var r3 := LeftStep(r2, InputBit(1, 2));
    var r4 := LeftStep(r3, InputBit(1, 3));
    var r5 := LeftStep(r4, InputBit(1, 4));
    var r6 := LeftStep(r5, InputBit(1, 5));
    var r7 := LeftStep(r6, InputBit(1, 6));
    var r8 := LeftStep(r7, InputBit(1, 7));
    assert LeftBits(r8, 1, 8) == r8;
    assert LeftBits(r6, 1, 6) == r8;
    assert LeftBits(r4, 1, 4) == r8;
    assert LeftBits(r2, 1, 2) == r8;
    assert LeftBits(0, 1, 0) == r8;
    assert LeftBytes(0, [1]) == r8;
  }
}
