/**
 The search for the first set or clear bit (redisBitpos and BITPOS in
 bitops.c), with its byte steps up to an aligned address, its word steps and
 its scan of the last word.
 */
module Bitpos {
  import opened Bits
  import opened Sds

  /** No bit before position `n` is the one looked for. */
  ghost predicate NoneBefore(s: seq<bv8>, bit: bool, n: int) {
    n <= 8 * |s| && forall i :: 0 <= i < n ==> BitAt(s, i) != bit
  }

  /** The answer redisBitpos promises: the least position, with zeroes past the end. */
  ghost predicate IsFirst(s: seq<bv8>, bit: bool, r: int) {
    if r == -1 then bit && NoneBefore(s, bit, 8 * |s|)
    else 0 <= r && NoneBefore(s, bit, r) && (if r < 8 * |s| then BitAt(s, r) == bit else !bit)
  }

  /** There is only one such answer. */
  lemma FirstUnique(s: seq<bv8>, bit: bool, r: int, t: int)
    requires IsFirst(s, bit, r) && IsFirst(s, bit, t)
    ensures r == t
  {
    hide BitAt;
  }

  /** The next eight bytes, padded with zeroes on the right. */
  function Window(s: seq<bv8>, c: nat): seq<bv8>
    requires c <= |s|
  {
    seq(8, i requires 0 <= i < 8 => if c + i < |s| then s[c + i] else 0)
  }

  lemma SkipByte(s: seq<bv8>, bit: bool, c: nat)
    requires c < |s| && NoneBefore(s, bit, 8 * c) && s[c] == if bit then 0 else 0xff
    ensures NoneBefore(s, bit, 8 * (c + 1))
  {
    hide ByteBit;
    forall i | 8 * c <= i < 8 * (c + 1) ensures BitAt(s, i) != bit {
      PlainByte(s[c], bit, i - 8 * c);
      BitOfByte(s, c, i - 8 * c);
    }
  }

  lemma {:induction false} SkipBytes(s: seq<bv8>, bit: bool, c: nat, d: nat)
    requires c <= d <= |s| && NoneBefore(s, bit, 8 * c)
    requires forall i :: c <= i < d ==> s[i] == if bit then 0 else 0xff
    ensures NoneBefore(s, bit, 8 * d)
    decreases d - c
  {
    hide NoneBefore;
    if c < d {
      SkipByte(s, bit, c);
      SkipBytes(s, bit, c + 1, d);
    }
  }

  lemma WindowBytes(s: seq<bv8>, c: nat)
    requires c + 8 <= |s|
    ensures Window(s, c) == s[c..c + 8]
  {
  }

  lemma SkipWord(s: seq<bv8>, bit: bool, c: nat)
    requires c + 8 <= |s| && NoneBefore(s, bit, 8 * c)
    requires Pack(s[c..c + 8]) == if bit then 0 else 0xffffffffffffffff
    ensures NoneBefore(s, bit, 8 * (c + 8))
  {
    hide NoneBefore, Pack;
    var b := s[c..c + 8];
    PlainWord(b, bit);
    forall i | c <= i < c + 8 ensures s[i] == if bit then 0 else 0xff {
      assert s[i] == b[i - c];
    }
    SkipBytes(s, bit, c, c + 8);
  }

  lemma WindowBit(s: seq<bv8>, c: nat, j: nat)
    requires c <= |s| && j < 64
    ensures WordBit(Pack(Window(s, c)), j) == (8 * c + j < 8 * |s| && BitAt(s, 8 * c + j))
  {
    hide ByteBit, WordBit, Pack;
    var q, r := j / 8, j % 8;
    PackBit(Window(s, c), q, r);
    assert 8 * q + r == j;
    if c + q < |s| {
      BitOfByte(s, c + q, r);
    } else {
      ZeroBit(r);
    }
  }

  lemma ZeroBit(r: nat)
    requires r < 8
    ensures !ByteBit(0, r)
  {
  }

  /** A window with a byte that is not plain holds the bit looked for. */
  lemma WindowFound(s: seq<bv8>, bit: bool, c: nat, q: nat) returns (j: nat)
    requires c <= |s| && q < 8 && Window(s, c)[q] != if bit then 0 else 0xff
    ensures j < 64 && WordBit(Pack(Window(s, c)), j) == bit
  {
    hide ByteBit, WordBit, Pack;
    var r := ByteFound(Window(s, c)[q], bit);
    PackBit(Window(s, c), q, r);
    j := 8 * q + r;
  }

  /** Why the scan of the last word cannot fail. */
  lemma WordFound(s: seq<bv8>, bit: bool, c: nat) returns (j: nat)
    requires c <= |s|
    requires Pack(Window(s, c)) != 0 || !bit
    requires !bit && c + 8 <= |s| ==> Pack(Window(s, c)) != 0xffffffffffffffff
    ensures j < 64 && WordBit(Pack(Window(s, c)), j) == bit
  {
    hide WordBit, Pack;
    var b := Window(s, c);
    PlainWord(b, bit);
    if !bit && c + 8 > |s| {
      j := WindowFound(s, bit, c, |s| - c);
    } else {
      var q :| 0 <= q < 8 && b[q] != if bit then 0 else 0xff;
      j := WindowFound(s, bit, c, q);
    }
  }

  /** redisBitpos on the bytes `s`, which start at address `addr`. */
  method RedisBitpos(s: seq<bv8>, addr: nat, bit: bool) returns (pos: int)
    ensures IsFirst(s, bit, pos)
  {
    hide BitAt, Pack, WordBit, Mask, Meets, Half, Push8, Window;
    pos := 0;
    var c := 0;
    var found := false;
    var skip: bv8 := if bit then 0 else 0xff;
    while (addr + c) % 8 != 0 && c < |s|
      invariant 0 <= c <= |s| && pos == 8 * c && !found
      invariant NoneBefore(s, bit, 8 * c)
      decreases |s| - c
    {
      if s[c] != skip {
        found := true;
        break;
      }
      SkipByte(s, bit, c);
      c := c + 1;
      pos := pos + 8;
    }
    if !found {
      var skipWord: bv64 := if bit then 0 else 0xffffffffffffffff;
      while |s| - c >= 8
        invariant 0 <= c <= |s| && pos == 8 * c
        invariant NoneBefore(s, bit, 8 * c)
      {
        if Pack(s[c..c + 8]) != skipWord {
          break;
        }
        SkipWord(s, bit, c);
        c := c + 8;
        pos := pos + 64;
      }
    }
    var word := LoadWord(s, c);
    LastWindow(s, bit, c, found);
    if bit && word == 0 {
      WindowEmpty(s, c);
      return -1;
    }
    ghost var at := WordFound(s, bit, c);
    pos := ScanWord(word, bit, pos, at);
    ScanIsFirst(s, bit, c, pos);
  }

  /** The next bytes as a word, the first on top. */
  method LoadWord(s: seq<bv8>, c: nat) returns (word: bv64)
    requires c <= |s|
    ensures word == Pack(Window(s, c))
  {
    hide Pack, Push8;
    word := 0;
    var k := c;
    ghost var b := Window(s, c);
    PackNone();
    assert b[..0] == [];
    for j := 0 to 8
      invariant k == if c + j <= |s| then c + j else |s|
      invariant word == Pack(b[..j])
    {
      PackSnoc(b[..j + 1]);
      assert b[..j + 1][..j] == b[..j];
      PushParts(word, 0);
      word := word << 8;
      if k < |s| {
        PushParts(Pack(b[..j]), s[k]);
        word := word | (s[k] as bv64);
        k := k + 1;
      }
    }
    assert b[..8] == b;
  }

  lemma PushParts(w: bv64, b: bv8)
    ensures Push8(w, b) == (w << 8) | (b as bv64)
    ensures Push8(w, 0) == w << 8
  {
  }

  /** The scan bit by bit; it never reaches the panic at its end. */
  method ScanWord(word: bv64, bit: bool, start: int, ghost at: nat) returns (pos: int)
    requires at < 64 && WordBit(word, at) == bit
    ensures start <= pos <= start + at && WordBit(word, pos - start) == bit
    ensures forall i :: 0 <= i < pos - start ==> WordBit(word, i) != bit
  {
    hide WordBit, Mask, Meets, Half;
    var one: bv64 := TOP;
    pos := start;
    MaskZero();
    MaskNotZero(0);
    while one != 0
      invariant start <= pos <= start + at
      invariant one == Mask(pos - start) && one != 0
      invariant forall i :: 0 <= i < pos - start ==> WordBit(word, i) != bit
      decreases start + at - pos
    {
      MaskMeets(word, pos - start);
      if Meets(one, word) == bit {
        return;
      }
      MaskNext(pos - start);
      MaskNotZero(pos - start + 1);
      pos := pos + 1;
      one := Half(one);
    }
  }

  lemma LastWindow(s: seq<bv8>, bit: bool, c: nat, found: bool)
    requires c <= |s|
    requires found ==> c < |s| && s[c] != if bit then 0 else 0xff
    requires !found && c + 8 <= |s| ==> Pack(s[c..c + 8]) != if bit then 0 else 0xffffffffffffffff
    ensures Pack(Window(s, c)) == (if bit then 0 else 0xffffffffffffffff) ==> !found && c + 8 > |s|
  {
    hide Pack;
    PlainWord(Window(s, c), bit);
    if c + 8 <= |s| {
      WindowBytes(s, c);
    }
    if found {
      assert Window(s, c)[0] == s[c];
    }
  }

  lemma WindowEmpty(s: seq<bv8>, c: nat)
    requires c <= |s| < c + 8 && NoneBefore(s, true, 8 * c) && Pack(Window(s, c)) == 0
    ensures NoneBefore(s, true, 8 * |s|)
  {
    hide Pack, NoneBefore;
    PlainWord(Window(s, c), true);
    forall i | c <= i < |s| ensures s[i] == 0 {
      assert Window(s, c)[i - c] == s[i];
    }
    SkipBytes(s, true, c, |s|);
  }

  lemma ScanIsFirst(s: seq<bv8>, bit: bool, c: nat, pos: int)
    requires c <= |s| && NoneBefore(s, bit, 8 * c)
    requires 8 * c <= pos < 8 * c + 64 && WordBit(Pack(Window(s, c)), pos - 8 * c) == bit
    requires forall i :: 0 <= i < pos - 8 * c ==> WordBit(Pack(Window(s, c)), i) != bit
    ensures IsFirst(s, bit, pos)
  {
    hide WordBit, Pack, Window, BitAt;
    forall i | 8 * c <= i < pos && i < 8 * |s| ensures BitAt(s, i) != bit {
      WindowBit(s, c, i - 8 * c);
    }
    WindowBit(s, c, pos - 8 * c);
    if pos > 8 * |s| {
      WindowBit(s, c, 8 * |s| - 8 * c);
    }
  }

  // ----- BITPOS -----

  datatype Range =
    | Whole                                        // no range given
    | From(start: int)                             // start only
    | Between(start: int, end: int, isbit: bool)   // start and end, in bytes or bits

  /** A negative index counts from the end; what is still negative becomes 0. */
  function FromEnd(i: int, total: nat): nat {
    var j := if i < 0 then total + i else i;
    if j < 0 then 0 else j
  }

  /** An end past the last element becomes the last element. */
  function Last(end: int, total: nat): int {
    var e := FromEnd(end, total);
    if e >= total then total - 1 else e
  }

  /** The first bit position of the range. */
  function Lo(s: seq<bv8>, g: Range): nat {
    match g
    case Whole => 0
    case From(start) => 8 * FromEnd(start, |s|)
    case Between(start, end, isbit) => if isbit then FromEnd(start, 8 * |s|) else 8 * FromEnd(start, |s|)
  }

  /** The position past the last bit of the range. */
  function Hi(s: seq<bv8>, g: Range): (hi: int)
    ensures hi <= 8 * |s|
  {
    match g
    case Whole => 8 * |s|
    case From(_) => 8 * |s|
    case Between(start, end, isbit) => if isbit then Last(end, 8 * |s|) + 1 else 8 * Last(end, |s|) + 8
  }

  /** The least position of the range that holds the bit. */
  ghost predicate LeastIn(s: seq<bv8>, bit: bool, lo: nat, hi: int, r: int) {
    && lo <= r < hi <= 8 * |s|
    && BitAt(s, r) == bit
    && forall i :: lo <= i < r ==> BitAt(s, i) != bit
  }

  ghost predicate NoneIn(s: seq<bv8>, bit: bool, lo: nat, hi: int) {
    hi <= 8 * |s| && forall i :: lo <= i < hi ==> BitAt(s, i) != bit
  }

  /** What BITPOS promises, for a key that exists. */
  ghost predicate Answer(s: seq<bv8>, bit: bool, g: Range, r: int) {
    var lo, hi := Lo(s, g), Hi(s, g);
    || (lo < hi && LeastIn(s, bit, lo, hi, r))
    || (NoneIn(s, bit, lo, hi) && r == if lo < hi && !bit && !g.Between? then hi else -1)
  }

  /** The bits of the first byte before the range, and of the last byte after it. */
  function FirstMask(k: nat): bv8
    requires k < 8
  {
    !((((1 as bv8) << (8 - k)) - 1)) & 0xff
  }

  function LastMask(k: nat): bv8
    requires k < 8
  {
    ((1 as bv8) << (7 - k)) - 1
  }

  /** A byte with everything before its bit `k` set to the bit not looked for. */
  function FromBit(b: bv8, bit: bool, k: nat): bv8
    requires k < 8
  {
    if bit then b & !FirstMask(k) else b | FirstMask(k)
  }

  /** A byte with everything after its bit `k` set to the bit not looked for. */
  function UpToBit(b: bv8, bit: bool, k: nat): bv8
    requires k < 8
  {
    if bit then b & !LastMask(k) else b | LastMask(k)
  }

  lemma FirstMasks(k: nat)
    requires k < 8
    ensures FirstMask(k) == match k case 0 => 0 case 1 => 0x80 case 2 => 0xc0 case 3 => 0xe0
                                    case 4 => 0xf0 case 5 => 0xf8 case 6 => 0xfc case 7 => 0xfe
    ensures LastMask(k) == match k case 0 => 0x7f case 1 => 0x3f case 2 => 0x1f case 3 => 0x0f
                                   case 4 => 0x07 case 5 => 0x03 case 6 => 0x01 case 7 => 0
  {
    if
    case k == 0 =>
    case k == 1 =>
    case k == 2 =>
    case k == 3 =>
    case k == 4 =>
    case k == 5 =>
    case k == 6 =>
    case k == 7 =>
  }

  lemma FromBitIs(b: bv8, bit: bool, k: nat, j: nat)
    requires k < 8 && j < 8
    ensures ByteBit(FromBit(b, bit, k), j) == bit <==> j >= k && ByteBit(b, j) == bit
  {
    hide FirstMask, LastMask;
    FirstMasks(k);
  }

  lemma UpToBitIs(b: bv8, bit: bool, k: nat, j: nat)
    requires k < 8 && j < 8
    ensures ByteBit(UpToBit(b, bit, k), j) == bit <==> j <= k && ByteBit(b, j) == bit
  {
    hide FirstMask, LastMask;
    FirstMasks(k);
  }

  /**
   Bytes that stand for the string from byte `start` on: they hold the bit
   looked for exactly where the string does within the range.
   */
  ghost predicate Piece(s: seq<bv8>, bit: bool, lo: nat, hi: int, start: nat, t: seq<bv8>) {
    && hi <= 8 * |s|
    && forall i :: 0 <= i < 8 * |t| ==>
         (BitAt(t, i) == bit <==> lo <= 8 * start + i < hi && BitAt(s, 8 * start + i) == bit)
  }

  /** One edge byte, masked on one side or both. */
  lemma EdgePiece(s: seq<bv8>, bit: bool, lo: nat, hi: int, start: nat, b: bv8)
    requires start < |s| && hi <= 8 * |s|
    requires forall j :: 0 <= j < 8 ==>
               (ByteBit(b, j) == bit <==> lo <= 8 * start + j < hi && ByteBit(s[start], j) == bit)
    ensures Piece(s, bit, lo, hi, start, [b])
  {
    hide ByteBit;
    forall i | 0 <= i < 8
      ensures BitAt([b], i) == bit <==> lo <= 8 * start + i < hi && BitAt(s, 8 * start + i) == bit
    {
      BitOfByte([b], 0, i);
      BitOfByte(s, start, i);
    }
  }

  lemma FirstPiece(s: seq<bv8>, bit: bool, start: nat, k: nat, hi: int)
    requires start < |s| && k < 8 && 8 * (start + 1) <= hi <= 8 * |s|
    ensures Piece(s, bit, 8 * start + k, hi, start, [FromBit(s[start], bit, k)])
  {
    hide ByteBit, FromBit;
    forall j | 0 <= j < 8
      ensures ByteBit(FromBit(s[start], bit, k), j) == bit <==> j >= k && ByteBit(s[start], j) == bit
    {
      FromBitIs(s[start], bit, k, j);
    }
    EdgePiece(s, bit, 8 * start + k, hi, start, FromBit(s[start], bit, k));
  }

  lemma LastPiece(s: seq<bv8>, bit: bool, lo: nat, start: nat, k: nat)
    requires start < |s| && k < 8 && lo <= 8 * start
    ensures Piece(s, bit, lo, 8 * start + k + 1, start, [UpToBit(s[start], bit, k)])
  {
    hide ByteBit, UpToBit;
    forall j | 0 <= j < 8
      ensures ByteBit(UpToBit(s[start], bit, k), j) == bit <==> j <= k && ByteBit(s[start], j) == bit
    {
      UpToBitIs(s[start], bit, k, j);
    }
    EdgePiece(s, bit, lo, 8 * start + k + 1, start, UpToBit(s[start], bit, k));
  }

  lemma OnlyPiece(s: seq<bv8>, bit: bool, start: nat, k: nat, m: nat)
    requires start < |s| && k < 8 && m < 8
    ensures Piece(s, bit, 8 * start + k, 8 * start + m + 1, start, [UpToBit(FromBit(s[start], bit, k), bit, m)])
  {
    hide ByteBit, UpToBit, FromBit;
    var b := FromBit(s[start], bit, k);
    forall j | 0 <= j < 8
      ensures ByteBit(UpToBit(b, bit, m), j) == bit <==> k <= j <= m && ByteBit(s[start], j) == bit
    {
      FromBitIs(s[start], bit, k, j);
      UpToBitIs(b, bit, m, j);
    }
    EdgePiece(s, bit, 8 * start + k, 8 * start + m + 1, start, UpToBit(b, bit, m));
  }

  lemma MiddlePiece(s: seq<bv8>, bit: bool, lo: nat, hi: int, start: nat, n: nat)
    requires lo <= 8 * start && 8 * (start + n) <= hi <= 8 * |s|
    ensures Piece(s, bit, lo, hi, start, s[start..start + n])
  {
    hide ByteBit;
    var t := s[start..start + n];
    forall i | 0 <= i < 8 * |t|
      ensures BitAt(t, i) == bit <==> lo <= 8 * start + i < hi && BitAt(s, 8 * start + i) == bit
    {
      BitOfByte(t, i / 8, i % 8);
      BitOfByte(s, start + i / 8, i % 8);
      assert 8 * (start + i / 8) + i % 8 == 8 * start + i;
    }
  }

  /** A piece without the bit moves the search on to the next byte. */
  lemma PieceNone(s: seq<bv8>, bit: bool, lo: nat, hi: int, start: nat, t: seq<bv8>, pos: int)
    requires Piece(s, bit, lo, hi, start, t) && IsFirst(t, bit, pos) && (pos == -1 || pos == 8 * |t|)
    requires NoneIn(s, bit, lo, if 8 * start < hi then 8 * start else hi)
    ensures var e := 8 * (start + |t|);
            NoneIn(s, bit, lo, if e < hi then e else hi)
  {
    hide BitAt;
    var e := 8 * (start + |t|);
    forall i | lo <= i < (if e < hi then e else hi) ensures BitAt(s, i) != bit {
      if i >= 8 * start {
        assert BitAt(t, i - 8 * start) != bit;
      }
    }
  }

  /** A piece with the bit holds the answer. */
  lemma PieceFound(s: seq<bv8>, bit: bool, lo: nat, hi: int, start: nat, t: seq<bv8>, pos: int)
    requires Piece(s, bit, lo, hi, start, t) && IsFirst(t, bit, pos) && pos != -1 && pos != 8 * |t|
    requires NoneIn(s, bit, lo, if 8 * start < hi then 8 * start else hi)
    ensures LeastIn(s, bit, lo, hi, 8 * start + pos)
  {
    hide BitAt;
    assert BitAt(t, pos) == bit;
    forall i | lo <= i < 8 * start + pos ensures BitAt(s, i) != bit {
      if i >= 8 * start {
        assert BitAt(t, i - 8 * start) != bit;
      }
    }
  }

  /** The bounds and masks of the command, in terms of the range. */
  lemma Split(s: seq<bv8>, start: nat, end: int, isbit: bool)
    requires start <= end < if isbit then 8 * |s| else |s|
    ensures isbit ==> start == 8 * (start / 8) + start % 8 && end == 8 * (end / 8) + end % 8
                      && start / 8 <= end / 8 < |s|
  {
  }

  /** Start and end of the range, in its own units, for a string of `n` bytes. */
  method ClampRange(n: nat, g: Range) returns (start: int, end: int)
    ensures g.Whole? ==> start == 0 && end == n - 1
    ensures g.From? ==> start == FromEnd(g.start, n) && end == n - 1
    ensures g.Between? ==>
              var total := if g.isbit then 8 * n else n;
              start == FromEnd(g.start, total) && end == Last(g.end, total)
  {
    start, end := 0, n - 1;
    if g.Whole? {
      return;
    }
    var totlen := if g.Between? && g.isbit then 8 * n else n;
    start := g.start;
    if g.Between? {
      end := g.end;
    }
    if start < 0 { start := totlen + start; }
    if end < 0 { end := totlen + end; }
    if start < 0 { start := 0; }
    if end < 0 { end := 0; }
    if end >= totlen { end := totlen - 1; }
  }

  /** BITPOS after its arguments are parsed; `key` is the value of the key, if it exists. */
  method BitposCommand(key: Option<seq<bv8>>, addr: nat, tmpAddr: nat, bit: bool, g: Range) returns (reply: int)
    ensures key.None? ==> reply == if bit then -1 else 0
    ensures key.Some? ==> Answer(key.value, bit, g, reply)
  {
    hide Answer;
    if key.None? {
      return if bit then -1 else 0;
    }
    var p := key.value;
    var isbit := g.Between? && g.isbit;
    var start, end := ClampRange(|p|, g);
    if start > end {
      EmptyRange(p, bit, g);
      return -1;
    }
    var k, m := 0, 7;
    if isbit {
      Split(p, start, end, isbit);
      k, m := start % 8, end % 8;
      start, end := start / 8, end / 8;
    }
    assert Lo(p, g) == 8 * start + k && Hi(p, g) == 8 * end + m + 1;
    reply := SearchRange(p, addr, tmpAddr, bit, start, end, k, m, g.Between?, g);
  }

  /** A range without positions holds neither bit. */
  lemma EmptyRange(s: seq<bv8>, bit: bool, g: Range)
    requires Hi(s, g) <= Lo(s, g) && Hi(s, g) <= 8 * |s|
    ensures Answer(s, bit, g, -1)
  {
    hide BitAt, Lo, Hi;
  }

  method SearchRange(p: seq<bv8>, addr: nat, tmpAddr: nat, bit: bool, first: nat, end: nat, k: nat, m: nat,
                     endGiven: bool, ghost g: Range) returns (reply: int)
    requires first <= end < |p| && k < 8 && m < 8 && (first == end ==> k <= m)
    requires Lo(p, g) == 8 * first + k && Hi(p, g) == 8 * end + m + 1 && endGiven == g.Between?
    requires !endGiven ==> m == 7
    ensures Answer(p, bit, g, reply)
  {
    hide BitAt, FromBit, UpToBit, IsFirst, Piece, NoneIn, LeastIn;
    ghost var lo, hi := Lo(p, g), Hi(p, g);
    var start := first;
    var bytes := end - start + 1;
    var pos := 0;
    var done := false;
    ghost var t: seq<bv8> := [];
    MaskZeroes(k, m);
    NothingYet(p, bit, lo, hi, start);
    if FirstMask(k) != 0 {
      var tmp := FromBit(p[start], bit, k);
      if LastMask(m) != 0 && bytes == 1 {
        tmp := UpToBit(tmp, bit, m);
        OnlyPiece(p, bit, start, k, m);
      } else {
        FirstPiece(p, bit, start, k, hi);
      }
      t := [tmp];
      pos := RedisBitpos([tmp], tmpAddr, bit);
      if bytes == 1 || (pos != -1 && pos != 8) {
        done := true;
      } else {
        PieceNone(p, bit, lo, hi, start, t, pos);
        start := start + 1;
        bytes := bytes - 1;
      }
    }
    if !done {
      var cur := bytes - if LastMask(m) != 0 then 1 else 0;
      if cur > 0 {
        MiddlePiece(p, bit, lo, hi, start, cur);
        t := p[start..start + cur];
        pos := RedisBitpos(p[start..start + cur], addr + start, bit);
        if bytes == cur || (pos != -1 && pos != 8 * cur) {
          done := true;
        } else {
          PieceNone(p, bit, lo, hi, start, t, pos);
          start := start + cur;
          bytes := bytes - cur;
        }
      }
    }
    if !done {
      LastPiece(p, bit, lo, end, m);
      var tmp := UpToBit(p[end], bit, m);
      t := [tmp];
      pos := RedisBitpos([tmp], tmpAddr, bit);
    }
    if pos == -1 || pos == 8 * |t| {
      PieceNone(p, bit, lo, hi, start, t, pos);
    } else {
      PieceFound(p, bit, lo, hi, start, t, pos);
    }
    FirstRange(t, bit, pos);
    if endGiven && !bit && pos == 8 * bytes {
      return -1;
    }
    if pos != -1 {
      pos := pos + 8 * start;
    }
    return pos;
  }

  lemma MaskZeroes(k: nat, m: nat)
    requires k < 8 && m < 8
    ensures (FirstMask(k) == 0 <==> k == 0) && (LastMask(m) == 0 <==> m == 7)
  {
    hide FirstMask, LastMask;
    FirstMasks(k);
    FirstMasks(m);
  }

  lemma NothingYet(s: seq<bv8>, bit: bool, lo: nat, hi: int, start: nat)
    requires 8 * start <= lo && hi <= 8 * |s|
    ensures NoneIn(s, bit, lo, if 8 * start < hi then 8 * start else hi)
  {
    hide BitAt;
  }

  lemma FirstRange(t: seq<bv8>, bit: bool, pos: int)
    requires IsFirst(t, bit, pos)
    ensures pos == -1 ==> bit
    ensures pos != -1 ==> 0 <= pos <= 8 * |t| && (pos == 8 * |t| ==> !bit)
  {
    hide BitAt;
  }
}
