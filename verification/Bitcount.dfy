/** BITCOUNT (bitops.c): set bits of a range given in bytes or bits. */
module Bitcount {
  import opened Sds
  import opened Bits
  import opened Bitpos
  import opened Popcount

  /** The number of set bits at positions from `lo` up to, not including, `hi`. */
  function CountIn(s: seq<bv8>, lo: nat, hi: int): nat
    requires hi <= 8 * |s|
    decreases hi - lo
  {
    if hi <= lo then 0 else CountIn(s, lo, hi - 1) + One(BitAt(s, hi - 1))
  }

  lemma {:induction false} CountSplit(s: seq<bv8>, lo: nat, mid: nat, hi: int)
    requires lo <= mid <= hi <= 8 * |s|
    ensures CountIn(s, lo, hi) == CountIn(s, lo, mid) + CountIn(s, mid, hi)
    decreases hi - mid
  {
    hide BitAt, One;
    if mid < hi {
      CountSplit(s, lo, mid, hi - 1);
    }
  }

  /** The set bits `k` to `n - 1` of a byte. */
  function BitsIn(b: bv8, k: nat, n: nat): nat
    requires n <= 8
    decreases n - k
  {
    if n <= k then 0 else BitsIn(b, k, n - 1) + One(ByteBit(b, n - 1))
  }

  lemma {:induction false} CountInByte(s: seq<bv8>, c: nat, k: nat, n: nat)
    requires c < |s| && n <= 8
    ensures CountIn(s, 8 * c + k, 8 * c + n) == BitsIn(s[c], k, n)
    decreases n - k
  {
    hide ByteBit, BitAt, One;
    if k < n {
      CountInByte(s, c, k, n - 1);
      BitOfByte(s, c, n - 1);
    }
  }

  lemma WholeByte(b: bv8)
    ensures BitsIn(b, 0, 8) == ByteOnes(b)
  {
    hide ByteBit, One;
    assert BitsIn(b, 0, 2) == One(ByteBit(b, 0)) + One(ByteBit(b, 1));
    assert BitsIn(b, 0, 4) == BitsIn(b, 0, 2) + One(ByteBit(b, 2)) + One(ByteBit(b, 3));
    assert BitsIn(b, 0, 6) == BitsIn(b, 0, 4) + One(ByteBit(b, 4)) + One(ByteBit(b, 5));
  }

  lemma {:induction false} SameBits(a: bv8, b: bv8, k: nat, n: nat)
    requires n <= 8 && forall j :: k <= j < n ==> ByteBit(a, j) == ByteBit(b, j)
    ensures BitsIn(a, k, n) == BitsIn(b, k, n)
    decreases n - k
  {
    hide ByteBit, One;
    if k < n {
      SameBits(a, b, k, n - 1);
    }
  }

  lemma {:induction false} NoBitsIn(a: bv8, k: nat, n: nat)
    requires n <= 8 && forall j :: k <= j < n ==> !ByteBit(a, j)
    ensures BitsIn(a, k, n) == 0
    decreases n - k
  {
    hide ByteBit;
    if k < n {
      NoBitsIn(a, k, n - 1);
    }
  }

  lemma {:induction false} BitsSplit(b: bv8, k: nat, m: nat, n: nat)
    requires k <= m <= n <= 8
    ensures BitsIn(b, k, n) == BitsIn(b, k, m) + BitsIn(b, m, n)
    decreases n - m
  {
    hide ByteBit, One;
    if m < n {
      BitsSplit(b, k, m, n - 1);
    }
  }

  /** The bits of an edge byte before the range, and after it. */
  function Before(b: bv8, k: nat): bv8
    requires k < 8
  {
    b & FirstMask(k)
  }

  function After(b: bv8, k: nat): bv8
    requires k < 8
  {
    b & LastMask(k)
  }

  lemma MaskedBit(b: bv8, k: nat, j: nat)
    requires k < 8 && j < 8
    ensures ByteBit(Before(b, k), j) == (j < k && ByteBit(b, j))
    ensures ByteBit(After(b, k), j) == (j > k && ByteBit(b, j))
  {
    hide FirstMask, LastMask;
    FirstMasks(k);
  }

  /** The masks pick out the bits of the edge bytes that lie outside the range. */
  lemma EdgeCounts(b: bv8, k: nat)
    requires k < 8
    ensures ByteOnes(Before(b, k)) == BitsIn(b, 0, k)
    ensures ByteOnes(After(b, k)) == BitsIn(b, k + 1, 8)
  {
    hide ByteBit, Before, After, BitsIn, ByteOnes;
    var f, l := Before(b, k), After(b, k);
    forall j | 0 <= j < 8
      ensures ByteBit(f, j) == (j < k && ByteBit(b, j)) && ByteBit(l, j) == (j > k && ByteBit(b, j))
    {
      MaskedBit(b, k, j);
    }
    WholeByte(f);
    WholeByte(l);
    BitsSplit(f, 0, k, 8);
    BitsSplit(l, 0, k + 1, 8);
    SameBits(f, b, 0, k);
    NoBitsIn(f, k, 8);
    NoBitsIn(l, 0, k + 1);
    SameBits(l, b, k + 1, 8);
  }

  lemma {:induction false} OnesAreBits(s: seq<bv8>, a: nat, b: nat)
    requires a <= b <= |s|
    ensures Ones(s[a..b]) == CountIn(s, 8 * a, 8 * b)
    decreases b - a
  {
    hide ByteOnes, CountIn;
    if a == b {
      NoneToCount(s, 8 * a);
    } else {
      OnesAreBits(s, a, b - 1);
      assert s[a..b][..b - 1 - a] == s[a..b - 1];
      CountSplit(s, 8 * a, 8 * (b - 1), 8 * b);
      CountInByte(s, b - 1, 0, 8);
      WholeByte(s[b - 1]);
    }
  }

  lemma NoneToCount(s: seq<bv8>, lo: nat)
    requires lo <= 8 * |s|
    ensures CountIn(s, lo, lo) == 0
  {
  }

  lemma OnesOfTwo(x: bv8, y: bv8)
    ensures Ones([x, y]) == ByteOnes(x) + ByteOnes(y)
  {
    hide ByteOnes;
    assert [x, y][..1] == [x] && [x][..0] == [];
    assert Ones([x]) == ByteOnes(x);
  }

  lemma CountEdges(s: seq<bv8>, a: nat, b: nat, k: nat, m: nat)
    requires a <= b < |s| && k < 8 && m < 8 && 8 * a + k <= 8 * b + m + 1
    ensures CountIn(s, 8 * a + k, 8 * b + m + 1) + BitsIn(s[a], 0, k) + BitsIn(s[b], m + 1, 8)
         == CountIn(s, 8 * a, 8 * (b + 1))
  {
    hide CountIn, BitsIn;
    CountSplit(s, 8 * a, 8 * a + k, 8 * (b + 1));
    CountSplit(s, 8 * a + k, 8 * b + m + 1, 8 * (b + 1));
    CountInByte(s, a, 0, k);
    CountInByte(s, b, m + 1, 8);
  }

  /** What is subtracted is exactly what lies outside the range, even when both edges share a byte. */
  lemma EdgesOut(s: seq<bv8>, a: nat, b: nat, k: nat, m: nat)
    requires a <= b < |s| && k < 8 && m < 8 && 8 * a + k <= 8 * b + m + 1
    ensures CountIn(s, 8 * a + k, 8 * b + m + 1)
         == Ones(s[a..b + 1]) - Ones([Before(s[a], k), After(s[b], m)])
  {
    hide CountIn, Ones, ByteOnes, Before, After, BitsIn;
    OnesAreBits(s, a, b + 1);
    CountEdges(s, a, b, k, m);
    EdgeCounts(s[a], k);
    EdgeCounts(s[b], m);
    OnesOfTwo(Before(s[a], k), After(s[b], m));
  }

  /** What BITCOUNT promises; two negative bounds in the wrong order count nothing. */
  function Counted(s: seq<bv8>, g: Range): nat
    requires !g.From?
  {
    if g.Between? && g.start < 0 && g.end < 0 && g.start > g.end then 0
    else CountIn(s, Lo(s, g), Hi(s, g))
  }

  /** The bytes of the range counted whole, less the masked bits of the edge bytes. */
  method CountRange(p: seq<bv8>, addr: nat, tmpAddr: nat, start: nat, end: nat, k: nat, m: nat) returns (count: int)
    requires start <= end < |p| && k < 8 && m < 8 && 8 * start + k <= 8 * end + m + 1
    ensures count == CountIn(p, 8 * start + k, 8 * end + m + 1)
  {
    hide CountIn, Ones, FirstMask, LastMask, Before, After;
    EdgesOut(p, start, end, k, m);
    count := RedisPopcount(p[start..end + 1], addr + start);
    NoMask(p[start], k);
    NoMask(p[end], m);
    if FirstMask(k) != 0 || LastMask(m) != 0 {
      var first, last: bv8 := 0, 0;
      if FirstMask(k) != 0 { first := Before(p[start], k); }
      if LastMask(m) != 0 { last := After(p[end], m); }
      var out := RedisPopcount([first, last], tmpAddr);
      count := count - out;
    } else {
      OnesOfTwo(0, 0);
      NoOnesInZero();
    }
  }

  /** BITCOUNT after its numbers are parsed. A start without an end is a syntax error, and a missing key counts 0. */
  method BitcountCommand(key: Option<seq<bv8>>, addr: nat, tmpAddr: nat, g: Range) returns (reply: Option<int>)
    ensures reply.None? <==> g.From?
    ensures !g.From? ==> reply == Some(if key.Some? then Counted(key.value, g) else 0)
  {
    hide CountIn, Ones, FirstMask, LastMask;
    if g.From? {
      return None;
    }
    if key.None? {
      return Some(0);
    }
    var p := key.value;
    if g.Between? && g.start < 0 && g.end < 0 && g.start > g.end {
      return Some(0);
    }
    var isbit := g.Between? && g.isbit;
    var start, end := ClampRange(|p|, g);
    if start > end {
      NoneCounted(p, Lo(p, g), Hi(p, g));
      return Some(0);
    }
    var k, m := 0, 7;
    if isbit {
      Split(p, start, end, isbit);
      k, m := start % 8, end % 8;
      start, end := start / 8, end / 8;
    }
    var count := CountRange(p, addr, tmpAddr, start, end, k, m);
    reply := Some(count);
  }

  lemma NoneCounted(s: seq<bv8>, lo: nat, hi: int)
    requires hi <= lo && hi <= 8 * |s|
    ensures CountIn(s, lo, hi) == 0
  {
  }

  lemma NoMask(b: bv8, k: nat)
    requires k < 8
    ensures FirstMask(k) == 0 ==> Before(b, k) == 0
    ensures LastMask(k) == 0 ==> After(b, k) == 0
  {
    hide FirstMask, LastMask;
  }

  lemma NoOnesInZero()
    ensures ByteOnes(0) == 0
  {
  }
}
