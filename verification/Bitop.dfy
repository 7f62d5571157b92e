/**
 BITOP (bitops.c): AND, OR, XOR and NOT of strings, four words at a time as
 long as every source has data and byte by byte, with early exits, after that.
 */
module Bitop {

  datatype Op = AND | OR | XOR | NOT

  function Apply(op: Op, x: bv8, y: bv8): bv8 {
    match op
    case AND => x & y
    case OR => x | y
    case XOR => x ^ y
    case NOT => x
  }

  /** A string is followed by zeroes; a missing key is an empty string. */
  function ByteAt(s: seq<bv8>, j: nat): bv8 {
    if j < |s| then s[j] else 0
  }

  /** Byte `j` of the operation over the first `n` sources. */
  function Fold(op: Op, srcs: seq<seq<bv8>>, j: nat, n: nat): bv8
    requires 1 <= n <= |srcs|
    decreases n
  {
    if n == 1 then (if op == NOT then !ByteAt(srcs[0], j) else ByteAt(srcs[0], j))
    else Apply(op, Fold(op, srcs, j, n - 1), ByteAt(srcs[n - 1], j))
  }

  /** An output that no further source can change. */
  predicate Settled(op: Op, x: bv8) {
    (op == AND && x == 0) || (op == OR && x == 0xff)
  }

  lemma {:induction false} SettledStays(op: Op, srcs: seq<seq<bv8>>, j: nat, n: nat, m: nat)
    requires 1 <= n <= m <= |srcs| && Settled(op, Fold(op, srcs, j, n))
    ensures Fold(op, srcs, j, m) == Fold(op, srcs, j, n)
    decreases m
  {
    hide ByteAt;
    if n < m {
      SettledStays(op, srcs, j, n, m - 1);
      Absorbs(op, Fold(op, srcs, j, n), ByteAt(srcs[m - 1], j));
      hide Apply;
    }
  }

  lemma Absorbs(op: Op, x: bv8, y: bv8)
    requires Settled(op, x)
    ensures Apply(op, x, y) == x
  {
  }

  // ----- words -----

  function ApplyWord(op: Op, x: bv64, y: bv64): bv64 {
    match op
    case AND => x & y
    case OR => x | y
    case XOR => x ^ y
    case NOT => x
  }

  /** Eight bytes read as one machine word, and a word stored as eight bytes. */
  function Load(b: seq<bv8>): bv64
    requires |b| == 8
  {
    Word(b[0], b[1], b[2], b[3], b[4], b[5], b[6], b[7])
  }

  function Word(b0: bv8, b1: bv8, b2: bv8, b3: bv8, b4: bv8, b5: bv8, b6: bv8, b7: bv8): bv64 {
    (b0 as bv64) | ((b1 as bv64) << 8) | ((b2 as bv64) << 16) | ((b3 as bv64) << 24)
    | ((b4 as bv64) << 32) | ((b5 as bv64) << 40) | ((b6 as bv64) << 48) | ((b7 as bv64) << 56)
  }

  function Down8(w: bv64): bv64 { w >> 8 }
  function LowByte(w: bv64): bv8 { (w & 0xff) as bv8 }

  function Shifted(w: bv64, q: nat): bv64 {
    if q == 0 then w else Shifted(Down8(w), q - 1)
  }

  function Store(w: bv64): (b: seq<bv8>)
    ensures |b| == 8
  {
    seq(8, q requires 0 <= q < 8 => LowByte(Shifted(w, q)))
  }

  lemma WordFirst(b0: bv8, b1: bv8, b2: bv8, b3: bv8, b4: bv8, b5: bv8, b6: bv8, b7: bv8)
    ensures LowByte(Word(b0, b1, b2, b3, b4, b5, b6, b7)) == b0
    ensures Down8(Word(b0, b1, b2, b3, b4, b5, b6, b7)) == Word(b1, b2, b3, b4, b5, b6, b7, 0)
  {
  }

  /** Storing a word gives back the bytes it was loaded from. */
  lemma {:induction false} StoreLoad(b: seq<bv8>, q: nat)
    requires |b| == 8 && q < 8
    ensures LowByte(Shifted(Load(b), q)) == b[q]
    decreases q
  {
    hide LowByte, Load, Down8;
    LoadFirst(b);
    if q > 0 {
      StoreLoad(b[1..] + [0], q - 1);
    }
  }

  lemma LoadFirst(b: seq<bv8>)
    requires |b| == 8
    ensures LowByte(Load(b)) == b[0] && Down8(Load(b)) == Load(b[1..] + [0])
  {
    hide LowByte, Down8, Word;
    WordFirst(b[0], b[1], b[2], b[3], b[4], b[5], b[6], b[7]);
  }

  function Flip(x: bv8): bv8 { !x }
  function FlipWord(x: bv64): bv64 { !x }

  /** The operations act on the low byte and on the rest apart. */
  lemma AndParts(x: bv64, y: bv64)
    ensures LowByte(ApplyWord(AND, x, y)) == Apply(AND, LowByte(x), LowByte(y))
    ensures Down8(ApplyWord(AND, x, y)) == ApplyWord(AND, Down8(x), Down8(y))
  {
  }

  lemma OrParts(x: bv64, y: bv64)
    ensures LowByte(ApplyWord(OR, x, y)) == Apply(OR, LowByte(x), LowByte(y))
    ensures Down8(ApplyWord(OR, x, y)) == ApplyWord(OR, Down8(x), Down8(y))
  {
  }

  lemma XorParts(x: bv64, y: bv64)
    ensures LowByte(ApplyWord(XOR, x, y)) == Apply(XOR, LowByte(x), LowByte(y))
    ensures Down8(ApplyWord(XOR, x, y)) == ApplyWord(XOR, Down8(x), Down8(y))
  {
  }

  lemma {:induction false} ShiftedOp(op: Op, x: bv64, y: bv64, q: nat)
    requires op != NOT
    ensures LowByte(Shifted(ApplyWord(op, x, y), q)) == Apply(op, LowByte(Shifted(x, q)), LowByte(Shifted(y, q)))
    decreases q
  {
    hide LowByte, Down8, Apply, ApplyWord;
    match op {
      case AND => AndParts(x, y);
      case OR => OrParts(x, y);
      case XOR => XorParts(x, y);
    }
    if q > 0 {
      ShiftedOp(op, Down8(x), Down8(y), q - 1);
    }
  }

  /** A word operation is the byte operation on each of its bytes. */
  lemma WordIsBytes(op: Op, a: seq<bv8>, b: seq<bv8>, q: nat)
    requires |a| == 8 && |b| == 8 && op != NOT && q < 8
    ensures Store(ApplyWord(op, Load(a), Load(b)))[q] == Apply(op, a[q], b[q])
  {
    hide Load, LowByte, Apply, ApplyWord, Shifted;
    StoreLoad(a, q);
    StoreLoad(b, q);
    ShiftedOp(op, Load(a), Load(b), q);
  }

  /** NOT is exclusive or with ones. */
  lemma NotBytes(a: seq<bv8>, q: nat)
    requires |a| == 8 && q < 8
    ensures Store(FlipWord(Load(a)))[q] == Flip(a[q])
  {
    hide Load, Store;
    var ones := seq(8, _ => 0xff as bv8);
    FlipIsXor(Load(a), a[q]);
    LoadOnes();
    WordIsBytes(XOR, a, ones, q);
  }

  lemma FlipIsXor(x: bv64, y: bv8)
    ensures FlipWord(x) == ApplyWord(XOR, x, 0xffffffffffffffff) && Flip(y) == Apply(XOR, y, 0xff)
  {
  }

  lemma LoadOnes()
    ensures Load(seq(8, _ => 0xff as bv8)) == 0xffffffffffffffff
  {
  }

  /** One word of the result combined with the same word of a source. */
  method OpWord(op: Op, res: array<bv8>, at: nat, src: seq<bv8>)
    requires at + 8 <= res.Length && at + 8 <= |src| && op != NOT
    modifies res
    ensures forall i :: 0 <= i < res.Length ==>
              res[i] == if at <= i < at + 8 then Apply(op, old(res[i]), src[i]) else old(res[i])
  {
    hide Apply, ApplyWord, Store, Load;
    var a, b := res[at..at + 8], src[at..at + 8];
    var c := Store(ApplyWord(op, Load(a), Load(b)));
    forall q | 0 <= q < 8 ensures c[q] == Apply(op, a[q], b[q]) {
      WordIsBytes(op, a, b, q);
    }
    forall q | 0 <= q < 8 {
      res[at + q] := c[q];
    }
  }

  method NotWord(res: array<bv8>, at: nat)
    requires at + 8 <= res.Length
    modifies res
    ensures forall i :: 0 <= i < res.Length ==>
              res[i] == if at <= i < at + 8 then Flip(old(res[i])) else old(res[i])
  {
    hide Store, Load, Flip, FlipWord;
    var a := res[at..at + 8];
    var c := Store(FlipWord(Load(a)));
    forall q | 0 <= q < 8 ensures c[q] == Flip(a[q]) {
      NotBytes(a, q);
    }
    forall q | 0 <= q < 8 {
      res[at + q] := c[q];
    }
  }

  /** Four words of the result, over all sources after the first. */
  method OpBlock(op: Op, res: array<bv8>, at: nat, srcs: seq<seq<bv8>>)
    requires |srcs| >= 1 && at + 32 <= res.Length && (op == NOT ==> |srcs| == 1)
    requires forall n :: 0 <= n < |srcs| ==> at + 32 <= |srcs[n]|
    requires forall i :: at <= i < at + 32 ==> res[i] == srcs[0][i]
    modifies res
    ensures forall i :: at <= i < at + 32 ==> res[i] == Fold(op, srcs, i, |srcs|)
    ensures forall i :: 0 <= i < res.Length && !(at <= i < at + 32) ==> res[i] == old(res[i])
  {
    hide Apply;
    if op == NOT {
      for k := 0 to 4
        invariant forall i :: 0 <= i < res.Length ==>
                    res[i] == if at <= i < at + 8 * k then Flip(old(res[i])) else old(res[i])
      {
        NotWord(res, at + 8 * k);
      }
      return;
    }
    for n := 1 to |srcs|
      invariant forall i :: at <= i < at + 32 ==> res[i] == Fold(op, srcs, i, n)
      invariant forall i :: 0 <= i < res.Length && !(at <= i < at + 32) ==> res[i] == old(res[i])
    {
      ghost var was := res[..];
      for k := 0 to 4
        invariant forall i :: 0 <= i < res.Length ==>
                    res[i] == if at <= i < at + 8 * k then Apply(op, was[i], srcs[n][i]) else was[i]
      {
        OpWord(op, res, at + 8 * k, srcs[n]);
      }
    }
  }

  /** One byte over all sources, leaving the loop once the output is settled. */
  method FoldByte(op: Op, srcs: seq<seq<bv8>>, j: nat) returns (output: bv8)
    requires |srcs| >= 1
    ensures output == Fold(op, srcs, j, |srcs|)
  {
    hide Apply;
    output := if |srcs[0]| <= j then 0 else srcs[0][j];
    if op == NOT {
      output := !output;
    }
    for i := 1 to |srcs|
      invariant output == Fold(op, srcs, j, i)
    {
      var byte := if |srcs[i]| <= j then 0 else srcs[i][j];
      output := Apply(op, output, byte);
      if Settled(op, output) {
        SettledStays(op, srcs, j, i + 1, |srcs|);
        break;
      }
    }
  }

  function MaxLen(srcs: seq<seq<bv8>>, n: nat): nat
    requires n <= |srcs|
    decreases n
  {
    if n == 0 then 0
    else
      var m := MaxLen(srcs, n - 1);
      if |srcs[n - 1]| > m then |srcs[n - 1]| else m
  }

  lemma {:induction false} MaxLenIs(srcs: seq<seq<bv8>>, n: nat)
    requires n <= |srcs|
    ensures forall i :: 0 <= i < n ==> |srcs[i]| <= MaxLen(srcs, n)
    ensures MaxLen(srcs, n) == 0 || exists i :: 0 <= i < n && |srcs[i]| == MaxLen(srcs, n)
    decreases n
  {
    if n > 0 {
      MaxLenIs(srcs, n - 1);
      if |srcs[n - 1]| <= MaxLen(srcs, n - 1) && MaxLen(srcs, n - 1) > 0 {
        var i :| 0 <= i < n - 1 && |srcs[i]| == MaxLen(srcs, n - 1);
        assert |srcs[i]| == MaxLen(srcs, n);
      }
    }
  }

  /** The computation of bitopCommand; `fast` is off where unaligned words cannot be read. */
  method Bitop(op: Op, srcs: seq<seq<bv8>>, fast: bool) returns (res: array<bv8>)
    requires |srcs| >= 1 && (op == NOT ==> |srcs| == 1)
    ensures res.Length == MaxLen(srcs, |srcs|)
    ensures forall j :: 0 <= j < res.Length ==> res[j] == Fold(op, srcs, j, |srcs|)
  {
    hide Fold;
    var maxlen, minlen := 0, 0;
    for i := 0 to |srcs|
      invariant maxlen == MaxLen(srcs, i)
      invariant i > 0 ==> forall n :: 0 <= n < i ==> minlen <= |srcs[n]|
    {
      if |srcs[i]| > maxlen { maxlen := |srcs[i]|; }
      if i == 0 || |srcs[i]| < minlen { minlen := |srcs[i]|; }
    }
    MaxLenIs(srcs, |srcs|);
    assert minlen <= |srcs[0]| <= maxlen;
    res := new bv8[maxlen](_ => 0);
    var j := 0;
    if fast && minlen >= 32 && |srcs| <= 16 {
      forall i | 0 <= i < minlen {
        res[i] := srcs[0][i];
      }
      while minlen - j >= 32
        invariant j <= minlen
        invariant forall i :: 0 <= i < j ==> res[i] == Fold(op, srcs, i, |srcs|)
        invariant forall i :: j <= i < minlen ==> res[i] == srcs[0][i]
      {
        OpBlock(op, res, j, srcs);
        j := j + 32;
      }
    }
    while j < maxlen
      invariant j <= maxlen
      invariant forall i :: 0 <= i < j ==> res[i] == Fold(op, srcs, i, |srcs|)
    {
      var output := FoldByte(op, srcs, j);
      res[j] := output;
      j := j + 1;
    }
  }
}
