/**
 Integers of 1 to 64 bits at any bit offset of a string (BITFIELD in
 bitops.c): reading, writing, and incrementing with wrap, saturation or
 failure on overflow. Machine integers are numbers here, and every
 conversion to 64 bits is written out.
 */
module Bitfield {
  import opened Sds
  import opened Bits

  const TWO63 := 0x8000_0000_0000_0000
  const TWO64 := 0x1_0000_0000_0000_0000

  /** uint64_t and int64_t */
  function U64(x: int): nat { x % TWO64 }
  function S64(x: int): int { if U64(x) >= TWO63 then U64(x) - TWO64 else U64(x) }

  predicate IsInt64(x: int) { -TWO63 <= x < TWO63 }

  function Pow2(n: nat): (r: nat)
    ensures r >= 1
    decreases n
  {
    if n == 0 then 1 else 2 * Pow2(n - 1)
  }

  lemma {:induction false} PowAdd(m: nat, n: nat)
    ensures Pow2(m + n) == Pow2(m) * Pow2(n)
    decreases m
  {
    if m == 0 {
    } else {
      PowAdd(m - 1, n);
      assert Pow2(m + n) == 2 * Pow2(m - 1 + n);
      Assoc2(Pow2(m - 1), Pow2(n));
    }
  }

  lemma Assoc2(x: nat, y: nat)
    ensures (2 * x) * y == 2 * (x * y)
  {
  }

  lemma Pow64()
    ensures Pow2(64) == TWO64 && Pow2(63) == TWO63
  {
    hide Pow2;
    Pow8();
    PowAdd(8, 8);
    PowAdd(16, 16);
    PowAdd(32, 32);
    PowNext(63);
  }

  lemma Pow8()
    ensures Pow2(8) == 256
  {
    assert Pow2(4) == 16;
  }

  lemma PowNext(n: nat)
    ensures Pow2(n + 1) == 2 * Pow2(n)
  {
  }

  lemma {:induction false} PowGrows(m: nat, n: nat)
    requires m <= n
    ensures Pow2(m) <= Pow2(n)
    decreases n
  {
    if m < n {
      PowGrows(m, n - 1);
    }
  }

  // ----- remainders -----

  lemma MulGap(m: nat, p: int, q: int)
    requires p < q
    ensures m * p + m <= m * q
  {
    assert m * q == m * p + m * (q - p);
    assert m * (q - p) == m + m * (q - p - 1);
    assert m * (q - p - 1) >= 0;
  }

  lemma ModUnique(a: int, m: nat, q: int, r: int)
    requires a == m * q + r && 0 <= r < m
    ensures a % m == r
  {
    var p, s := a / m, a % m;
    assert a == m * p + s && 0 <= s < m;
    if p < q {
      MulGap(m, p, q);
    } else if q < p {
      MulGap(m, q, p);
    }
  }

  lemma ModShift(r: int, m: nat, t: int)
    requires m > 0
    ensures (r + m * t) % m == r % m
  {
    var q, s := r / m, r % m;
    assert r == m * q + s;
    Distribute(m, q, t);
    ModUnique(r + m * t, m, q + t, s);
  }

  lemma Distribute(m: int, q: int, t: int)
    ensures m * (q + t) == m * q + m * t
  {
  }

  lemma ModOfMod(x: int, m: nat, k: nat)
    requires m > 0 && k > 0 && m * k > 0
    ensures (x % (m * k)) % m == x % m
  {
    var q, r := x / (m * k), x % (m * k);
    assert x == (m * k) * q + r;
    Regroup(m, k, q);
    ModShift(r, m, k * q);
  }

  lemma Regroup(m: int, k: int, q: int)
    ensures (m * k) * q == m * (k * q)
  {
  }

  /** Going through 64 bits loses nothing of the low bits. */
  lemma LowBits(x: int, bits: nat)
    requires bits <= 64
    ensures U64(x) % Pow2(bits) == x % Pow2(bits)
  {
    hide Pow2;
    PowAdd(bits, 64 - bits);
    Pow64();
    ModOfMod(x, Pow2(bits), Pow2(64 - bits));
  }

  // ----- overflow -----

  datatype Policy = Wrap | Sat | Fail

  /** The returned code, and the limit where one is set. */
  datatype Check = Check(code: int, limit: Option<int>)

  /** checkUnsignedBitfieldOverflow */
  function CheckUnsigned(value: nat, incr: int, bits: nat, ow: Policy): Check {
    var max := if bits == 64 then TWO64 - 1 else Pow2(bits) - 1;
    var maxincr := S64(max - value);
    var minincr := S64(0 - value);
    var wrapped := U64(value + incr) % Pow2(bits);
    if value > max || (incr > 0 && incr > maxincr) then
      match ow
      case Wrap => Check(1, Some(wrapped))
      case Sat => Check(1, Some(max))
      case Fail => Check(1, None)
    else if incr < 0 && incr < minincr then
      match ow
      case Wrap => Check(1, Some(wrapped))
      case Sat => Check(-1, Some(0))
      case Fail => Check(-1, None)
    else Check(0, None)
  }

  /** The 64-bit word `c` with the sign of a field of `bits` bits propagated, as int64_t. */
  function Propagate(c: nat, bits: nat): int
    requires 1 <= bits <= 64
  {
    if bits == 64 then S64(c)
    else
      var low := c % Pow2(bits);
      if low >= Pow2(bits - 1) then S64(low + (TWO64 - Pow2(bits))) else S64(low)
  }

  /** checkSignedBitfieldOverflow */
  function CheckSigned(value: int, incr: int, bits: nat, ow: Policy): Check
    requires 1 <= bits <= 64
  {
    var max := if bits == 64 then TWO63 - 1 else Pow2(bits - 1) - 1;
    var min := -max - 1;
    var maxincr := S64(max - value);
    var minincr := S64(min - value);
    var wrapped := Propagate(U64(value + incr), bits);
    if value > max || (bits != 64 && incr > maxincr) || (value >= 0 && incr > 0 && incr > maxincr) then
      match ow
      case Wrap => Check(1, Some(wrapped))
      case Sat => Check(1, Some(max))
      case Fail => Check(1, None)
    else if value < min || (bits != 64 && incr < minincr) || (value < 0 && incr < 0 && incr < minincr) then
      match ow
      case Wrap => Check(1, Some(wrapped))
      case Sat => Check(-1, Some(min))
      case Fail => Check(-1, None)
    else Check(0, None)
  }

  /** The type of a field: its least and greatest value. */
  function MinOf(sign: bool, bits: nat): int
    requires bits >= 1
  {
    if sign then 0 - Pow2(bits - 1) else 0
  }

  function MaxOf(sign: bool, bits: nat): int
    requires bits >= 1
  {
    if sign then Pow2(bits - 1) - 1 else Pow2(bits) - 1
  }

  predicate Fits(x: int, sign: bool, bits: nat)
    requires bits >= 1
  {
    MinOf(sign, bits) <= x <= MaxOf(sign, bits)
  }

  predicate TypeOk(sign: bool, bits: nat) {
    1 <= bits <= if sign then 64 else 63
  }

  /** What storing `sum` comes to when it does not fit. */
  ghost predicate Resolved(sum: int, sign: bool, bits: nat, ow: Policy, limit: Option<int>)
    requires bits >= 1
  {
    match ow
    case Wrap => limit.Some? && Fits(limit.value, sign, bits) && limit.value % Pow2(bits) == sum % Pow2(bits)
    case Sat => limit == Some(if sum > MaxOf(sign, bits) then MaxOf(sign, bits) else MinOf(sign, bits))
    case Fail => limit == None
  }

  function CheckField(value: int, incr: int, sign: bool, bits: nat, ow: Policy): Check
    requires TypeOk(sign, bits) && (!sign ==> value >= 0)
  {
    if sign then CheckSigned(value, incr, bits, ow) else CheckUnsigned(value, incr, bits, ow)
  }

  lemma SmallS64(x: int)
    requires IsInt64(x)
    ensures S64(x) == x
  {
  }

  lemma UnsignedExact(value: nat, incr: int, bits: nat, ow: Policy)
    requires 1 <= bits <= 63 && Fits(value, false, bits) && IsInt64(incr)
    ensures var c := CheckUnsigned(value, incr, bits, ow);
            && (c.code != 0 <==> !Fits(value + incr, false, bits))
            && (c.code != 0 ==> Resolved(value + incr, false, bits, ow, c.limit))
  {
    hide Pow2, U64, S64;
    Pow64();
    PowGrows(bits, 63);
    SmallS64(Pow2(bits) - 1 - value);
    SmallS64(0 - value);
    LowBits(value + incr, bits);
    InMod(value + incr, Pow2(bits));
  }

  lemma InMod(x: int, m: nat)
    requires m > 0
    ensures (x % m) % m == x % m && 0 <= x % m < m
  {
    ModUnique(x % m, m, 0, x % m);
  }

  lemma PropagateIs(sum: int, bits: nat)
    requires 1 <= bits <= 64
    ensures var w := Propagate(U64(sum), bits);
            Fits(w, true, bits) && w % Pow2(bits) == sum % Pow2(bits)
  {
    hide Pow2, U64, S64;
    Pow64();
    PowNext(bits - 1);
    PowGrows(bits, 64);
    LowBits(sum, bits);
    if bits == 64 {
      WholeWord(sum);
    } else {
      PowGrows(bits, 63);
      var low := U64(sum) % Pow2(bits);
      InMod(sum, Pow2(bits));
      if low >= Pow2(bits - 1) {
        HighBits(low - Pow2(bits));
        ModShift(low, Pow2(bits), -1);
      } else {
        SmallS64(low);
      }
    }
  }

  lemma HighBits(x: int)
    requires -TWO63 <= x < 0
    ensures S64(x + TWO64) == x
  {
  }

  lemma WholeWord(sum: int)
    ensures S64(U64(sum)) % TWO64 == sum % TWO64 && IsInt64(S64(U64(sum)))
  {
  }

  lemma SignedExact(value: int, incr: int, bits: nat, ow: Policy)
    requires 1 <= bits <= 64 && Fits(value, true, bits) && IsInt64(incr)
    ensures var c := CheckSigned(value, incr, bits, ow);
            && (c.code != 0 <==> !Fits(value + incr, true, bits))
            && (c.code != 0 ==> Resolved(value + incr, true, bits, ow, c.limit))
  {
    hide Pow2, U64, S64, Propagate;
    Pow64();
    PowNext(bits - 1);
    PropagateIs(value + incr, bits);
    if bits < 64 {
      PowGrows(bits, 63);
      PowGrows(bits - 1, 62);
      SmallS64(Pow2(bits - 1) - 1 - value);
      SmallS64(0 - Pow2(bits - 1) - value);
    } else {
      if value >= 0 {
        SmallS64(TWO63 - 1 - value);
      } else {
        SmallS64(-TWO63 - value);
      }
    }
  }

  /** INCRBY: overflow is reported exactly when the sum leaves the type, and then resolved. */
  lemma IncrExact(value: int, incr: int, sign: bool, bits: nat, ow: Policy)
    requires TypeOk(sign, bits) && Fits(value, sign, bits) && IsInt64(incr)
    ensures var c := CheckField(value, incr, sign, bits, ow);
            && (c.code != 0 <==> !Fits(value + incr, sign, bits))
            && (c.code != 0 ==> Resolved(value + incr, sign, bits, ow, c.limit))
  {
    hide CheckSigned, CheckUnsigned, Resolved;
    if sign {
      SignedExact(value, incr, bits, ow);
    } else {
      UnsignedExact(value, incr, bits, ow);
    }
  }

  // ----- SET -----

  /** The check that SET makes of the new value; an unsigned field sees it as uint64_t. */
  function CheckSet(value: int, sign: bool, bits: nat, ow: Policy): Check
    requires TypeOk(sign, bits)
  {
    if sign then CheckSigned(value, 0, bits, ow) else CheckUnsigned(U64(value), 0, bits, ow)
  }

  function Nearer(value: int, sign: bool, bits: nat): int
    requires bits >= 1
  {
    if value > MaxOf(sign, bits) then MaxOf(sign, bits) else MinOf(sign, bits)
  }

  /** When SET saturates the right way. */
  predicate SaturatesRight(value: int, sign: bool, bits: nat)
    requires bits >= 1
  {
    if sign then MaxOf(true, bits) - value < TWO63 else value >= 0
  }

  /**
   SET on a signed field with saturation takes the nearer bound exactly as
   long as the distance to the upper bound fits into 64 bits; below that it
   takes the upper bound.
   */
  lemma SetSaturates(value: int, bits: nat)
    requires 1 <= bits <= 64 && IsInt64(value) && !Fits(value, true, bits)
    ensures var c := CheckSigned(value, 0, bits, Sat);
            && c.code != 0
            && (c.limit == Some(Nearer(value, true, bits)) <==> MaxOf(true, bits) - value < TWO63)
            && (c.limit == Some(MaxOf(true, bits)) || c.limit == Some(MinOf(true, bits)))
  {
    hide Pow2, Propagate;
    Pow64();
    if bits < 64 {
      PowGrows(bits - 1, 62);
      PowNext(62);
    }
  }

  /** On an unsigned field it takes the upper bound for every negative value. */
  lemma SetSaturatesUnsigned(value: int, bits: nat)
    requires 1 <= bits <= 63 && IsInt64(value) && !Fits(value, false, bits)
    ensures var c := CheckUnsigned(U64(value), 0, bits, Sat);
            && c == Check(1, Some(MaxOf(false, bits)))
            && (c.limit == Some(Nearer(value, false, bits)) <==> value >= 0)
  {
    hide Pow2;
    UnsignedRange(bits);
  }

  lemma UnsignedRange(bits: nat)
    requires 1 <= bits <= 63
    ensures 2 <= Pow2(bits) <= TWO63
  {
    Pow64();
    PowGrows(bits, 63);
    PowAtLeast(bits);
  }

  /** SET reports overflow exactly when the value does not fit. */
  lemma SetReports(value: int, sign: bool, bits: nat, ow: Policy)
    requires TypeOk(sign, bits) && IsInt64(value)
    ensures CheckSet(value, sign, bits, ow).code != 0 <==> !Fits(value, sign, bits)
  {
    hide Pow2, Propagate;
    Pow64();
    if !sign {
      UnsignedRange(bits);
    } else if bits < 64 {
      PowGrows(bits - 1, 62);
      PowNext(62);
    }
  }

  /** And resolves it as the policy says, but for saturation outside the condition above. */
  lemma SetExact(value: int, sign: bool, bits: nat, ow: Policy)
    requires TypeOk(sign, bits) && IsInt64(value) && !Fits(value, sign, bits)
    ensures var c := CheckSet(value, sign, bits, ow);
            Resolved(value, sign, bits, ow, c.limit) <==> (ow.Sat? ==> SaturatesRight(value, sign, bits))
  {
    hide Pow2, Propagate, U64, S64;
    SetReports(value, sign, bits, ow);
    match ow
    case Sat => if sign { SetSaturates(value, bits); } else { SetSaturatesUnsigned(value, bits); }
    case Wrap =>
      if sign { PropagateIs(value, bits); } else { WrapsUnsigned(value, bits); }
    case Fail =>
  }

  lemma WrapsUnsigned(value: int, bits: nat)
    requires bits <= 63
    ensures var w := U64(U64(value) + 0) % Pow2(bits);
            0 <= w < Pow2(bits) && w % Pow2(bits) == value % Pow2(bits)
  {
    hide Pow2;
    LowBits(value, bits);
    InMod(value, Pow2(bits));
  }

  /** The least int64_t saturates to the greatest value of a signed eight bit field. */
  lemma SetSaturatesWrongly()
    ensures CheckSigned(-TWO63, 0, 8, Sat) == Check(1, Some(127))
  {
    hide Propagate;
    assert Pow2(4) == 16;
    assert Pow2(7) == 128;
  }

  /** And -1 to the greatest value of an unsigned one. */
  lemma UnsignedSaturatesWrongly()
    ensures CheckUnsigned(U64(-1), 0, 8, Sat) == Check(1, Some(255))
  {
    Pow8();
  }

  // ----- fields -----

  /** Bit `k` of a number, the least significant first. */
  predicate ValueBit(v: nat, k: nat)
    decreases k
  {
    if k == 0 then v % 2 == 1 else ValueBit(v / 2, k - 1)
  }

  /** `n` bits from position `o` on as a number. */
  function Field(s: seq<bv8>, o: nat, n: nat): nat
    requires o + n <= 8 * |s|
    decreases n
  {
    if n == 0 then 0 else 2 * Field(s, o, n - 1) + if BitAt(s, o + n - 1) then 1 else 0
  }

  lemma {:induction false} FieldSmall(s: seq<bv8>, o: nat, n: nat)
    requires o + n <= 8 * |s|
    ensures Field(s, o, n) < Pow2(n)
    decreases n
  {
    hide BitAt;
    if n > 0 {
      FieldSmall(s, o, n - 1);
    }
  }

  lemma ModHalves(v: nat, m: nat)
    requires m > 0
    ensures v % (2 * m) == 2 * ((v / 2) % m) + v % 2
  {
    var h := v / 2;
    var q, r := h / m, h % m;
    assert h == m * q + r;
    assert v == (2 * m) * q + (2 * r + v % 2) by {
      Regroup(2, m, q);
    }
    ModUnique(v, 2 * m, q, 2 * r + v % 2);
  }

  /** Bits written from a number read back as the number's low bits. */
  lemma {:induction false} FieldOfBits(s: seq<bv8>, o: nat, n: nat, v: nat)
    requires o + n <= 8 * |s|
    requires forall i :: o <= i < o + n ==> BitAt(s, i) == ValueBit(v, n - 1 - (i - o))
    ensures Field(s, o, n) == v % Pow2(n)
    decreases n
  {
    hide BitAt;
    if n == 0 {
      assert v % 1 == 0;
    } else {
      assert forall i :: o <= i < o + n - 1 ==> BitAt(s, i) == ValueBit(v / 2, n - 2 - (i - o));
      FieldOfBits(s, o, n - 1, v / 2);
      ModHalves(v, Pow2(n - 1));
      assert BitAt(s, o + n - 1) == ValueBit(v, 0);
    }
  }

  /** getUnsignedBitfield */
  method GetUnsigned(p: array<bv8>, offset: nat, bits: nat) returns (value: nat)
    requires offset + bits <= 8 * p.Length && bits <= 64
    ensures value == Field(p[..], offset, bits)
  {
    hide ByteBit, Pow2, U64;
    value := 0;
    for j := 0 to bits
      invariant value == Field(p[..], offset, j)
    {
      FieldSmall(p[..], offset, j + 1);
      PowGrows(j + 1, 64);
      Pow64();
      var at := offset + j;
      var bit := ByteBit(p[at / 8], at % 8);
      SmallU64(2 * value + if bit then 1 else 0);
      value := U64(2 * value + if bit then 1 else 0);
    }
  }

  lemma SmallU64(x: nat)
    requires x < TWO64
    ensures U64(x) == x
  {
  }

  /** The signed value of a field. */
  function Signed(u: nat, bits: nat): int
    requires bits >= 1
  {
    if u >= Pow2(bits - 1) then u - Pow2(bits) else u
  }

  function Value(s: seq<bv8>, o: nat, sign: bool, bits: nat): int
    requires bits >= 1 && o + bits <= 8 * |s|
  {
    if sign then Signed(Field(s, o, bits), bits) else Field(s, o, bits)
  }

  lemma ValueFits(s: seq<bv8>, o: nat, sign: bool, bits: nat)
    requires bits >= 1 && o + bits <= 8 * |s|
    ensures Fits(Value(s, o, sign, bits), sign, bits)
  {
    hide Field;
    FieldSmall(s, o, bits);
    PowNext(bits - 1);
  }

  /** getSignedBitfield: the top bit is propagated upwards. */
  method GetSigned(p: array<bv8>, offset: nat, bits: nat) returns (value: int)
    requires 1 <= bits <= 64 && offset + bits <= 8 * p.Length
    ensures value == Value(p[..], offset, true, bits)
  {
    hide Pow2, U64, S64, Field;
    var u := GetUnsigned(p, offset, bits);
    FieldSmall(p[..], offset, bits);
    Pow64();
    PowNext(bits - 1);
    value := S64(u);
    if bits < 64 {
      PowGrows(bits, 63);
      SmallS64(u);
      if u >= Pow2(bits - 1) {
        HighBits(u - Pow2(bits));
        value := S64(u + (TWO64 - Pow2(bits)));
      }
    } else {
      TopBit(u);
    }
  }

  lemma TopBit(u: nat)
    requires u < TWO64
    ensures S64(u) == if u >= TWO63 then u - TWO64 else u
  {
  }

  /** One bit of a byte set or cleared. */
  function PutBit(b: bv8, j: nat, v: bool): bv8
    requires j < 8
  {
    (b & !((1 as bv8) << (7 - j))) | ((if v then 1 as bv8 else 0) << (7 - j))
  }

  lemma PutBitIs(b: bv8, j: nat, v: bool, i: nat)
    requires j < 8 && i < 8
    ensures ByteBit(PutBit(b, j, v), i) == if i == j then v else ByteBit(b, i)
  {
    if
    case j == 0 =>
    case j == 1 =>
    case j == 2 =>
    case j == 3 =>
    case j == 4 =>
    case j == 5 =>
    case j == 6 =>
    case j == 7 =>
  }

  lemma PutBitAt(s: seq<bv8>, at: nat, v: bool, i: nat)
    requires at < 8 * |s| && i < 8 * |s|
    ensures BitAt(s[at / 8 := PutBit(s[at / 8], at % 8, v)], i) == if i == at then v else BitAt(s, i)
  {
    hide ByteBit, PutBit;
    PutBitIs(s[at / 8], at % 8, v, i % 8);
    if i / 8 == at / 8 && i % 8 == at % 8 {
      assert i == at;
    }
  }

  /** The string with the low `n` bits of `v`, from the top, at positions `o` on. */
  ghost predicate Written(was: seq<bv8>, s: seq<bv8>, o: nat, n: nat, bits: nat, v: nat) {
    && |s| == |was| && n <= bits && o + bits <= 8 * |s|
    && forall i :: 0 <= i < 8 * |s| ==>
         BitAt(s, i) == if o <= i < o + n then ValueBit(v, bits - 1 - (i - o)) else BitAt(was, i)
  }

  /** setUnsignedBitfield */
  method SetUnsigned(p: array<bv8>, offset: nat, bits: nat, value: nat)
    requires offset + bits <= 8 * p.Length && bits <= 64
    modifies p
    ensures Written(old(p[..]), p[..], offset, bits, bits, value)
  {
    hide BitAt, PutBit;
    ghost var s := p[..];
    for j := 0 to bits
      invariant Written(s, p[..], offset, j, bits, value)
    {
      ghost var t := p[..];
      var at := offset + j;
      var v := ValueBit(value, bits - 1 - j);
      p[at / 8] := PutBit(p[at / 8], at % 8, v);
      assert p[..] == t[at / 8 := PutBit(t[at / 8], at % 8, v)];
      forall i | 0 <= i < 8 * |t|
        ensures BitAt(p[..], i) == if offset <= i < offset + j + 1 then ValueBit(value, bits - 1 - (i - offset)) else BitAt(s, i)
      {
        PutBitAt(t, at, v, i);
      }
    }
  }

  /** setSignedBitfield: the value goes through uint64_t. */
  method SetField(p: array<bv8>, offset: nat, sign: bool, bits: nat, value: int)
    requires TypeOk(sign, bits) && offset + bits <= 8 * p.Length && Fits(value, sign, bits)
    modifies p
    ensures Value(p[..], offset, sign, bits) == value
    ensures forall i :: 0 <= i < 8 * p.Length && !(offset <= i < offset + bits) ==> BitAt(p[..], i) == BitAt(old(p[..]), i)
  {
    hide BitAt, U64, Pow2, Field, ValueBit;
    SetUnsigned(p, offset, bits, U64(value));
    ghost var s := p[..];
    FieldOfBits(s, offset, bits, U64(value));
    LowBits(value, bits);
    SignedBack(value, sign, bits);
  }

  lemma SignedBack(value: int, sign: bool, bits: nat)
    requires bits >= 1 && Fits(value, sign, bits)
    ensures (if sign then Signed(value % Pow2(bits), bits) else value % Pow2(bits)) == value
  {
    hide Pow2;
    PowNext(bits - 1);
    if value >= 0 {
      ModUnique(value, Pow2(bits), 0, value);
    } else {
      ModUnique(value, Pow2(bits), -1, value + Pow2(bits));
    }
  }

  /**
   BITFIELD INCRBY on a string that already reaches the field (bitfieldGeneric
   makes room first). The reply is nil when the policy is to fail.
   */
  method IncrBy(p: array<bv8>, offset: nat, sign: bool, bits: nat, incr: int, ow: Policy) returns (reply: Option<int>)
    requires TypeOk(sign, bits) && offset + bits <= 8 * p.Length && IsInt64(incr)
    modifies p
    ensures var sum := Value(old(p[..]), offset, sign, bits) + incr;
            && (Fits(sum, sign, bits) ==> reply == Some(sum))
            && (!Fits(sum, sign, bits) ==> Resolved(sum, sign, bits, ow, reply))
    ensures Value(p[..], offset, sign, bits)
         == if reply.Some? then reply.value else Value(old(p[..]), offset, sign, bits)
    ensures forall i :: 0 <= i < 8 * p.Length && !(offset <= i < offset + bits) ==> BitAt(p[..], i) == BitAt(old(p[..]), i)
  {
    hide BitAt, Field, Pow2, CheckSigned, CheckUnsigned;
    var oldval;
    if sign {
      oldval := GetSigned(p, offset, bits);
    } else {
      oldval := GetUnsigned(p, offset, bits);
    }
    ValueFits(p[..], offset, sign, bits);
    IncrExact(oldval, incr, sign, bits, ow);
    var c := CheckField(oldval, incr, sign, bits, ow);
    if c.code != 0 && ow.Fail? {
      return None;
    }
    PowAtLeast(bits);
    var newval := if c.code != 0 then c.limit.value else oldval + incr;
    SetField(p, offset, sign, bits, newval);
    return Some(newval);
  }

  /** BITFIELD SET on a string that already reaches the field; the reply is the old value, or nil on failure. */
  method SetOp(p: array<bv8>, offset: nat, sign: bool, bits: nat, value: int, ow: Policy) returns (reply: Option<int>)
    requires TypeOk(sign, bits) && offset + bits <= 8 * p.Length && IsInt64(value)
    modifies p
    ensures var was := Value(old(p[..]), offset, sign, bits);
            var now := Value(p[..], offset, sign, bits);
            if Fits(value, sign, bits) then reply == Some(was) && now == value
            else if ow.Fail? then reply == None && now == was
            else reply == Some(was)
                 && (Resolved(value, sign, bits, ow, Some(now)) <==> (ow.Sat? ==> SaturatesRight(value, sign, bits)))
    ensures forall i :: 0 <= i < 8 * p.Length && !(offset <= i < offset + bits) ==> BitAt(p[..], i) == BitAt(old(p[..]), i)
  {
    hide BitAt, Field, Pow2, CheckSigned, CheckUnsigned, Resolved;
    var oldval;
    if sign {
      oldval := GetSigned(p, offset, bits);
    } else {
      oldval := GetUnsigned(p, offset, bits);
    }
    SetReports(value, sign, bits, ow);
    var c := CheckSet(value, sign, bits, ow);
    if c.code != 0 && ow.Fail? {
      return None;
    }
    if c.code != 0 {
      SetExact(value, sign, bits, ow);
      LimitFits(value, sign, bits, ow);
    }
    var newval := if c.code != 0 then c.limit.value else value;
    SetField(p, offset, sign, bits, newval);
    return Some(oldval);
  }

  lemma LimitFits(value: int, sign: bool, bits: nat, ow: Policy)
    requires TypeOk(sign, bits) && IsInt64(value) && !Fits(value, sign, bits) && !ow.Fail?
    ensures var c := CheckSet(value, sign, bits, ow); c.limit.Some? && Fits(c.limit.value, sign, bits)
  {
    hide Pow2, Propagate, U64, S64;
    PowAtLeast(bits);
    if ow.Sat? {
      if sign { SetSaturates(value, bits); } else { SetSaturatesUnsigned(value, bits); }
    } else {
      SetReports(value, sign, bits, ow);
      if sign { PropagateIs(value, bits); } else { WrapsUnsigned(value, bits); }
    }
  }

  lemma PowAtLeast(bits: nat)
    requires bits >= 1
    ensures Pow2(bits - 1) >= 1 && Pow2(bits) >= 2
  {
  }
}
