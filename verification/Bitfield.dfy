/**
 BITFIELD: integers of any width up to 63 bits at any bit offset of a string, with the three ways of
 handling overflow. Machine integers are written out: uint64_t values are reduced modulo 2^64 and
 int64_t values are in two's complement.
 */
module Bitfield {
  import opened Common
  import opened Bits
  import opened BitString

  const U64: nat := 0x1_0000_0000_0000_0000
  const I63: int := 0x8000_0000_0000_0000

  // ---------------------------------------------------------------- single bits

  /** x >> k */
  function Shr(x: nat, k: nat): nat {
    if k == 0 then x else Shr(x / 2, k - 1)
  }

  lemma {:induction false} ShrBit(x: nat, n: nat, i: nat)
    requires i < n
    ensures Msb(x, n)[i] == Shr(x, n - 1 - i) % 2
  {
    if i < n - 1 {
      ShrBit(x / 2, n - 1, i);
    }
  }

  lemma AndOne(x: nat)
    ensures Bitwise(And, x, 1) == x % 2
  {
    BitwiseStep(And, x / 2, x % 2, 0, 1);
    AndZero(x / 2);
  }

  lemma {:induction false} PowerBits(m: nat, n: nat, i: nat)
    requires m < n && i < n
    ensures Msb(Pow2(m), n)[i] == if i == n - 1 - m then 1 else 0
  {
    if m == 0 {
      if i < n - 1 {
        ZeroBits(n - 1);
      }
    } else if i < n - 1 {
      PowerBits(m - 1, n - 1, i);
    }
  }

  /** Only the low n bits of a number matter to its last n bits. */
  lemma {:induction false} MsbSuffix(x: nat, m: nat, n: nat, i: nat)
    requires n <= m && i < n
    ensures Msb(x, n)[i] == Msb(x, m)[m - n + i]
  {
    if i < n - 1 {
      MsbSuffix(x / 2, m - 1, n - 1, i);
    }
  }

  /** (value & (1 << k)) != 0 */
  lemma TestBit(x: nat, k: nat, n: nat)
    requires k < n && x < Pow2(n)
    ensures Bitwise(And, x, Pow2(k)) != 0 <==> Msb(x, n)[n - 1 - k] == 1
  {
    hide Bitwise, Msb, FromMsb;
    FromMsbBack(x, n);
    AndPower(Msb(x, n), k);
  }

  /** byteval &= ~(1 << bit); byteval |= bitval << bit, with bit r counted from the left. */
  function WriteBit(x: Byte, r: nat, v: nat): nat
    requires r < 8 && v < 2
  {
    SmallPower(7 - r);
    Bitwise(Or, Bitwise(And, x, 255 - Pow2(7 - r)), if v == 1 then Pow2(7 - r) else 0)
  }

  lemma WriteBitBits(x: Byte, r: nat, v: nat, k: nat)
    requires r < 8 && v < 2 && k < 8
    ensures WriteBit(x, r, v) < 256
    ensures Msb(WriteBit(x, r, v), 8)[k] == if k == r then v else Msb(x, 8)[k]
  {
    hide Bitwise, Msb, IsBits, Pow2;
    SmallPower(7 - r);
    PowerBits(7 - r, 8, k);
    NotByte(Pow2(7 - r), k);
    ZeroBits(8);
    var m: Byte := 255 - Pow2(7 - r);
    var w: Byte := if v == 1 then Pow2(7 - r) else 0;
    ByteBound(And, x, m);
    var y: Byte := Bitwise(And, x, m);
    ByteBound(Or, y, w);
    BitwiseBits(Or, y, w, 8, k);
    BitwiseBits(And, x, m, 8, k);
  }

  lemma SmallPower(m: nat)
    requires m < 8
    ensures Pow2(m) <= 128
  {
    assert Pow2(7) == 128;
    Pow2Grows(m, 7);
  }

  // ---------------------------------------------------------------- fields of a string

  /** The row of bits a field occupies. */
  function Field(s: seq<Byte>, offset: nat, bits: nat): (ds: seq<nat>)
    requires offset + bits <= 8 * |s|
    ensures |ds| == bits && IsBits(ds)
  {
    StringBits(s)[offset..offset + bits]
  }

  /** Writing one bit of one byte writes one bit of the string. */
  lemma WriteInString(s: seq<Byte>, offset: nat, v: nat)
    requires offset < 8 * |s| && v < 2
    ensures WriteBit(s[offset / 8], offset % 8, v) < 256
    ensures StringBits(s[offset / 8 := WriteBit(s[offset / 8], offset % 8, v)]) == StringBits(s)[offset := v]
  {
    hide StringBits, WriteBit, Msb, IsBits;
    var (q, r) := (offset / 8, offset % 8);
    WriteBitBits(s[q], r, v, 0);
    var s' := s[q := WriteBit(s[q], r, v)];
    forall i | 0 <= i < 8 * |s| ensures StringBits(s')[i] == StringBits(s)[offset := v][i] {
      var (a, b) := (i / 8, i % 8);
      BitOfString(s', a, b);
      BitOfString(s, a, b);
      if a == q {
        WriteBitBits(s[q], r, v, b);
      }
    }
  }

  /** setUnsignedBitfield: the low bits of the value go into the field, and nothing else changes. */
  method SetUnsignedBitfield(p: array<Byte>, offset: nat, bits: nat, value: nat)
    requires bits <= 64 && offset + bits <= 8 * p.Length && value < U64
    modifies p
    ensures StringBits(p[..]) == Placed(old(StringBits(p[..])), offset, Msb(value, bits))
  {
    hide StringBits, WriteBit, Msb, Bitwise;
    Pow2Values();
    ghost var row := StringBits(p[..]);
    NothingPlaced(row, offset, Msb(value, bits));
    for j := 0 to bits
      invariant StringBits(p[..]) == Placed(row, offset, Msb(value, bits)[..j])
    {
      TestBit(value, bits - 1 - j, 64);
      MsbSuffix(value, 64, bits, j);
      var bitval := if Bitwise(And, value, Pow2(bits - 1 - j)) != 0 then 1 else 0;
      var at := offset + j;
      WriteInString(p[..], at, bitval);
      PlacedOne(row, offset, Msb(value, bits), j);
      ghost var before := p[..];
      p[at / 8] := WriteBit(p[at / 8], at % 8, bitval);
      assert p[..] == before[at / 8 := p[at / 8]];
    }
    assert Msb(value, bits)[..bits] == Msb(value, bits);
  }

  /** The row with ds written over it from offset on. */
  function Placed(row: seq<nat>, offset: nat, ds: seq<nat>): (r: seq<nat>)
    requires offset + |ds| <= |row|
    ensures |r| == |row|
  {
    row[..offset] + ds + row[offset + |ds|..]
  }

  lemma NothingPlaced(row: seq<nat>, offset: nat, ds: seq<nat>)
    requires offset <= |row|
    ensures Placed(row, offset, ds[..0]) == row
  {
  }

  lemma PlacedOne(row: seq<nat>, offset: nat, ds: seq<nat>, j: nat)
    requires offset + |ds| <= |row| && j < |ds|
    ensures Placed(row, offset, ds[..j])[offset + j := ds[j]] == Placed(row, offset, ds[..j + 1])
  {
  }

  /** getUnsignedBitfield */
  method GetUnsignedBitfield(p: seq<Byte>, offset: nat, bits: nat) returns (value: nat)
    requires bits <= 64 && offset + bits <= 8 * |p|
    ensures value == FromMsb(Field(p, offset, bits)) && value < Pow2(bits)
  {
    hide StringBits, Msb, IsBits, Bitwise, FromMsb;
    value := 0;
    NoField(p, offset);
    for j := 0 to bits
      invariant value == FromMsb(Field(p, offset, j)) && value < Pow2(j)
    {
      var at := offset + j;
      var byteval := p[at / 8];
      BitOfString(p, at / 8, at % 8);
      ShrBit(byteval, 8, at % 8);
      AndOne(Shr(byteval, 7 - at % 8));
      var bitval := Bitwise(And, Shr(byteval, 7 - at % 8), 1);
      ShiftInBit(value, bitval, j);
      FieldOne(p, offset, j);
      value := Bitwise(Or, (2 * value) % U64, bitval);
    }
  }

  lemma NoField(p: seq<Byte>, offset: nat)
    requires offset <= 8 * |p|
    ensures FromMsb(Field(p, offset, 0)) == 0
  {
  }

  lemma FieldOne(p: seq<Byte>, offset: nat, j: nat)
    requires offset + j < 8 * |p|
    ensures FromMsb(Field(p, offset, j + 1)) == 2 * FromMsb(Field(p, offset, j)) + StringBits(p)[offset + j]
  {
    hide StringBits, FromMsb, IsBits;
    SliceOne(StringBits(p), offset, j);
    FromMsbLast(Field(p, offset, j), StringBits(p)[offset + j]);
  }

  lemma SliceOne(ds: seq<nat>, a: nat, j: nat)
    requires a + j < |ds|
    ensures ds[a..a + (j + 1)] == ds[a..a + j] + [ds[a + j]]
  {
  }

  lemma BitIs(b: nat)
    requires b < 2
    ensures OnBit(Or, 0, b) == b
  {
  }

  lemma Room(j: nat)
    requires j < 64
    ensures 2 * Pow2(j) == Pow2(j + 1) <= U64
  {
    assert Pow2(j + 1) == 2 * Pow2(j);
    hide Pow2;
    Pow2Values();
    Pow2Grows(j + 1, 64);
  }

  lemma OrLow(value: nat, b: nat)
    requires b < 2
    ensures Bitwise(Or, 2 * value, b) == 2 * value + b
  {
    BitIs(b);
    hide Bitwise, OnBit;
    BitwiseStep(Or, value, 0, 0, b);
    OrZero(value);
  }

  /** value = (value << 1) | bitval, which does not overflow. */
  lemma ShiftInBit(value: nat, bitval: nat, j: nat)
    requires j < 64 && value < Pow2(j) && bitval < 2
    ensures Bitwise(Or, (2 * value) % U64, bitval) == 2 * value + bitval < Pow2(j + 1)
  {
    hide Bitwise, Pow2;
    Room(j);
    assert (2 * value) % U64 == 2 * value;
    OrLow(value, bitval);
  }

  // ---------------------------------------------------------------- 64-bit integers

  /** The unsigned value of a 64-bit integer, and the signed one. */
  function ToU64(x: int): (u: nat)
    ensures u < U64
  {
    x % U64
  }

  function ToI64(u: nat): int
    requires u < U64
  {
    if u >= I63 then u - U64 else u
  }

  ghost predicate IsI64(x: int) {
    -I63 <= x < I63
  }

  /** a and b differ by a multiple of m. */
  ghost predicate Congruent(a: int, b: int, m: int) {
    exists k: int :: Differ(a, b, k, m)
  }

  ghost predicate Differ(a: int, b: int, k: int, m: int) {
    a - b == k * m
  }

  lemma CongruentChain(a: int, b: int, c: int, m: int)
    requires Congruent(a, b, m) && Congruent(b, c, m)
    ensures Congruent(a, c, m)
  {
    var j :| Differ(a, b, j, m);
    var k :| Differ(b, c, k, m);
    assert (j + k) * m == j * m + k * m;
    assert Differ(a, c, j + k, m);
  }

  /** A range of m numbers holds one of every kind. */
  lemma CongruentInRange(a: int, b: int, m: int, low: int)
    requires m > 0 && Congruent(a, b, m) && low <= a < low + m && low <= b < low + m
    ensures a == b
  {
    var k :| Differ(a, b, k, m);
    assert k >= 1 ==> k * m >= m;
    assert k <= -1 ==> k * m <= -m;
  }

  lemma {:induction false} PowersMultiply(a: nat, b: nat)
    ensures Pow2(a + b) == Pow2(a) * Pow2(b)
  {
    if b > 0 {
      PowersMultiply(a, b - 1);
      Twice(Pow2(a), Pow2(b - 1));
    }
  }

  /** What is left of 64 bits above a field of the given width. */
  lemma HighPart(bits: nat)
    requires bits <= 63
    ensures Pow2(64 - bits) * Pow2(bits) == U64 && Pow2(bits) <= I63
  {
    hide Pow2;
    PowersMultiply(64 - bits, bits);
    Pow2Values();
    Pow2Grows(bits, 63);
  }

  lemma ToU64Congruent(x: int, bits: nat)
    requires bits <= 63
    ensures Congruent(ToU64(x), x, Pow2(bits))
  {
    var (t, k, p) := (x / U64, Pow2(64 - bits), Pow2(bits));
    HighPart(bits);
    hide Pow2;
    assert x == U64 * t + ToU64(x);
    assert (k * p) * t == (k * t) * p;
    assert ToU64(x) - x == -((k * t) * p);
    assert -((k * t) * p) == (-(k * t)) * p;
    assert Differ(ToU64(x), x, -(k * t), p);
  }

  /** The low n bits of a number, and the rest. */
  lemma {:induction false} LowBits(x: nat, n: nat)
    ensures x == Shr(x, n) * Pow2(n) + FromMsb(Msb(x, n)) && FromMsb(Msb(x, n)) < Pow2(n)
  {
    if n > 0 {
      LowBits(x / 2, n - 1);
      FromMsbLast(Msb(x / 2, n - 1), x % 2);
      Twice(Shr(x / 2, n - 1), Pow2(n - 1));
    }
  }

  // ---------------------------------------------------------------- signed fields

  /** The number a row of bits stands for in two's complement. */
  function Signed(ds: seq<nat>): int {
    if ds != [] && ds[0] == 1 then FromMsb(ds) - Pow2(|ds|) else FromMsb(ds)
  }

  /** The range of an n-bit integer in two's complement. */
  predicate FitsSigned(v: int, n: nat)
    requires n > 0
  {
    0 - Pow2(n - 1) <= v < Pow2(n - 1)
  }

  lemma {:induction false} FirstBit(ds: seq<nat>)
    requires ds != [] && IsBits(ds)
    ensures ds[0] == 1 <==> FromMsb(ds) >= Pow2(|ds| - 1)
    ensures FromMsb(ds) < Pow2(|ds|)
  {
    if |ds| > 1 {
      FirstBit(ds[..|ds| - 1]);
    } else {
      assert ds[..0] == [];
    }
  }

  lemma SignedRange(ds: seq<nat>)
    requires ds != [] && IsBits(ds)
    ensures FitsSigned(Signed(ds), |ds|)
    ensures Congruent(Signed(ds), FromMsb(ds), Pow2(|ds|))
  {
    FirstBit(ds);
    assert Pow2(|ds|) == 2 * Pow2(|ds| - 1);
    hide Pow2, FromMsb;
    var p := Pow2(|ds|);
    assert Differ(FromMsb(ds), FromMsb(ds), 0, p) && Differ(FromMsb(ds) - p, FromMsb(ds), -1, p);
  }

  /** Storing a number in a field of n bits keeps it modulo 2^n; one in range comes back as it was. */
  lemma StoredIsCongruent(v: int, n: nat)
    requires 1 <= n <= 63
    ensures Congruent(Signed(Msb(ToU64(v), n)), v, Pow2(n)) && Congruent(FromMsb(Msb(ToU64(v), n)), v, Pow2(n))
    ensures FitsSigned(v, n) ==> Signed(Msb(ToU64(v), n)) == v
    ensures 0 <= v < Pow2(n) ==> FromMsb(Msb(ToU64(v), n)) == v
  {
    hide FromMsb, Msb, ToU64, Signed;
    var (u, p) := (ToU64(v), Pow2(n));
    var low := FromMsb(Msb(u, n));
    assert p == 2 * Pow2(n - 1);
    LowBits(u, n);
    hide Pow2, Congruent;
    LowCongruent(u, low, Shr(u, n), p);
    ToU64Congruent(v, n);
    CongruentChain(low, u, v, p);
    SignedRange(Msb(u, n));
    CongruentChain(Signed(Msb(u, n)), low, v, p);
    if FitsSigned(v, n) {
      CongruentInRange(Signed(Msb(u, n)), v, p, 0 - Pow2(n - 1));
    }
    if 0 <= v < p {
      CongruentInRange(low, v, p, 0);
    }
  }

  lemma LowCongruent(u: int, low: int, q: int, p: int)
    requires u == q * p + low
    ensures Congruent(low, u, p)
  {
    assert low - u == -(q * p) == (-q) * p;
    assert Differ(low, u, -q, p);
  }

  lemma {:induction false} OrFull(x: nat, k: nat)
    requires x < Pow2(k)
    ensures Bitwise(Or, x, Pow2(k) - 1) == Pow2(k) - 1
  {
    if k == 0 {
      OrZero(0);
    } else {
      hide Bitwise;
      OrFull(x / 2, k - 1);
      BitwiseStep(Or, x / 2, x % 2, Pow2(k - 1) - 1, 1);
    }
  }

  /** (uint64_t)-1 << n */
  function HighMask(n: nat): nat
    requires n <= 63
  {
    HighPart(n);
    U64 - Pow2(n)
  }

  lemma {:induction false} LowJoin(x: nat, n: nat)
    ensures Join(n, Shr(x, n), FromMsb(Msb(x, n))) == x
  {
    if n > 0 {
      LowJoin(x / 2, n - 1);
      FromMsbLast(Msb(x / 2, n - 1), x % 2);
      var (f, low) := (FromMsb(Msb(x / 2, n - 1)), FromMsb(Msb(x, n)));
      assert low == 2 * f + x % 2;
      hide FromMsb, Msb;
      assert low / 2 == f && low % 2 == x % 2;
    }
  }

  lemma {:induction false} JoinLow(n: nat, a: nat, b: nat)
    requires b < Pow2(n)
    ensures Join(n, a, b) == Join(n, a, 0) + b
  {
    if n > 0 {
      JoinLow(n - 1, a, b / 2);
    }
  }

  lemma {:induction false} ShrBound(x: nat, n: nat, m: nat)
    requires n <= m && x < Pow2(m)
    ensures Shr(x, n) < Pow2(m - n)
  {
    if n > 0 {
      ShrBound(x / 2, n - 1, m - 1);
    }
  }

  /** The mask is a row of ones above n zeros. */
  lemma {:induction false} OnesAboveZeros(n: nat, m: nat)
    requires n <= m
    ensures Join(n, Pow2(m - n) - 1, 0) == Pow2(m) - Pow2(n)
  {
    if n > 0 {
      OnesAboveZeros(n - 1, m - 1);
    }
  }

  /** x | mask and x & ~mask, for the low n bits of x. */
  lemma MaskHigh(x: nat, n: nat)
    requires n <= 63 && x < U64
    ensures Bitwise(Or, x, HighMask(n)) == HighMask(n) + FromMsb(Msb(x, n))
    ensures Bitwise(And, x, Pow2(n) - 1) == FromMsb(Msb(x, n))
  {
    hide Pow2, Bitwise, FromMsb, Msb, Join, Shr;
    var (ones, q, low) := (Pow2(64 - n) - 1, Shr(x, n), FromMsb(Msb(x, n)));
    Pow2Values();
    LowBits(x, n);
    LowJoin(x, n);
    AndLow(n, q, low);
    OnesAboveZeros(n, 64);
    ShrBound(x, n, 64);
    OrFull(q, 64 - n);
    OrZero(low);
    BitwiseSplit(Or, n, q, low, ones, 0);
    JoinLow(n, ones, low);
  }

  lemma U64Exact(x: int)
    requires IsI64(x)
    ensures ToU64(x) == if x >= 0 then x else x + U64
  {
  }

  lemma I64Wraps(x: int)
    requires I63 <= x < U64
    ensures ToI64(ToU64(x)) == x - U64
  {
  }

  lemma I64Exact(x: int)
    requires IsI64(x)
    ensures ToI64(ToU64(x)) == x
  {
  }

  /** getSignedBitfield */
  method GetSignedBitfield(p: seq<Byte>, offset: nat, bits: nat) returns (value: int)
    requires 1 <= bits <= 63 && offset + bits <= 8 * |p|
    ensures value == Signed(Field(p, offset, bits)) && FitsSigned(value, bits)
  {
    hide Field, Bitwise, FromMsb, Msb, IsBits;
    var u := GetUnsignedBitfield(p, offset, bits);
    ghost var ds := Field(p, offset, bits);
    MsbBack(ds);
    HighPart(bits);
    TestBit(u, bits - 1, bits);
    SignedRange(ds);
    MaskHigh(u, bits);
    if Bitwise(And, u, Pow2(bits - 1)) != 0 {
      u := Bitwise(Or, u, HighMask(bits));
    }
    value := ToI64(u);
  }

  /** setSignedBitfield */
  method SetSignedBitfield(p: array<Byte>, offset: nat, bits: nat, value: int)
    requires bits <= 64 && offset + bits <= 8 * p.Length
    modifies p
    ensures StringBits(p[..]) == Placed(old(StringBits(p[..])), offset, Msb(ToU64(value), bits))
  {
    SetUnsignedBitfield(p, offset, bits, ToU64(value));
  }

  /** A field reads back as what was written, and a disjoint one as before. */
  lemma FieldsAreIndependent(row: seq<nat>, offset: nat, ds: seq<nat>, other: nat, bits: nat)
    requires offset + |ds| <= |row| && other + bits <= |row|
    ensures Placed(row, offset, ds)[offset..offset + |ds|] == ds
    ensures other + bits <= offset || offset + |ds| <= other ==> Placed(row, offset, ds)[other..other + bits] == row[other..other + bits]
  {
  }

  // ---------------------------------------------------------------- overflow

  datatype Overflow = Wrap | Sat | Fail

  /** What fits into an unsigned field of n bits. */
  predicate FitsUnsigned(v: int, n: nat) {
    0 <= v < Pow2(n)
  }

  /** checkUnsignedBitfieldOverflow: 1, -1 or 0, and the value to use instead. */
  method CheckUnsignedOverflow(value: nat, incr: int, bits: nat, ow: Overflow) returns (code: int, limit: nat)
    requires 1 <= bits <= 63 && value < U64 && IsI64(incr)
    ensures code == 0 <==> value < Pow2(bits) && FitsUnsigned(value + incr, bits)
    ensures code == 1 || code == 0 || code == -1
    ensures code != 0 && ow == Sat ==> limit == if value < Pow2(bits) && value + incr < 0 then 0 else Pow2(bits) - 1
    ensures code != 0 && ow == Wrap ==> FitsUnsigned(limit, bits) && Congruent(limit, value + incr, Pow2(bits))
  {
    hide Pow2, Congruent, ToI64, ToU64;
    UnsignedDistances(value, bits);
    var max := Pow2(bits) - 1;
    var maxincr, minincr := ToI64(ToU64(max - value)), ToI64(ToU64(0 - value));
    limit := 0;
    if value > max || (incr > 0 && incr > maxincr) {
      if ow == Wrap {
        limit := WrapUnsigned(value + incr, bits);
      } else if ow == Sat {
        limit := max;
      }
      return 1, limit;
    } else if incr < 0 && incr < minincr {
      if ow == Wrap {
        limit := WrapUnsigned(value + incr, bits);
        return 1, limit;
      } else if ow == Sat {
        limit := 0;
      }
      return -1, limit;
    }
    return 0, limit;
  }

  /** max - value and -value as int64_t, for a value that is not too great. */
  lemma UnsignedDistances(value: nat, bits: nat)
    requires 1 <= bits <= 63
    ensures Pow2(bits) > 0
    ensures value < Pow2(bits) ==> ToI64(ToU64(Pow2(bits) - 1 - value)) == Pow2(bits) - 1 - value && ToI64(ToU64(0 - value)) == 0 - value
  {
    hide Pow2, ToI64, ToU64;
    HighPart(bits);
    if value < Pow2(bits) {
      I64Exact(Pow2(bits) - 1 - value);
      I64Exact(0 - value);
    }
  }

  /** handle_wrap of the unsigned check: res = value + incr; res &= ~mask. */
  method WrapUnsigned(sum: int, bits: nat) returns (limit: nat)
    requires 1 <= bits <= 63
    ensures FitsUnsigned(limit, bits) && Congruent(limit, sum, Pow2(bits))
  {
    hide Bitwise, FromMsb, Msb, Congruent;
    var res := ToU64(sum);
    MaskHigh(res, bits);
    StoredIsCongruent(sum, bits);
    LowBits(res, bits);
    limit := Bitwise(And, res, Pow2(bits) - 1);
  }

  /** Where a signed SET takes a number below the range for one above it: max - value exceeds an int64_t. */
  predicate TooLow(value: int, bits: nat)
    requires bits > 0
  {
    value < Pow2(bits - 1) - I63
  }

  /** checkSignedBitfieldOverflow: 1, -1 or 0, and the value to use instead. */
  method CheckSignedOverflow(value: int, incr: int, bits: nat, ow: Overflow) returns (code: int, limit: int)
    requires 1 <= bits <= 63 && IsI64(value) && IsI64(incr) && (FitsSigned(value, bits) || incr == 0)
    ensures code == 0 <==> FitsSigned(value + incr, bits)
    ensures code == 1 || code == 0 || code == -1
    ensures code != 0 && ow == Sat ==>
      limit == if value + incr >= Pow2(bits - 1) || (incr == 0 && TooLow(value, bits)) then Pow2(bits - 1) - 1 else 0 - Pow2(bits - 1)
    ensures code != 0 && ow == Wrap ==> FitsSigned(limit, bits) && Congruent(limit, value + incr, Pow2(bits))
  {
    HalfFits(bits);
    SignedDistances(value, bits);
    hide Pow2, Congruent, ToI64, ToU64;
    var max := Pow2(bits - 1) - 1;
    var min := 0 - max - 1;
    var maxincr, minincr := ToI64(ToU64(max - value)), ToI64(ToU64(min - value));
    limit := 0;
    if value > max || incr > maxincr || (value >= 0 && incr > 0 && incr > maxincr) {
      if ow == Wrap {
        limit := WrapSigned(value, incr, bits);
      } else if ow == Sat {
        limit := max;
      }
      return 1, limit;
    } else if value < min || incr < minincr || (value < 0 && incr < 0 && incr < minincr) {
      if ow == Wrap {
        limit := WrapSigned(value, incr, bits);
        return 1, limit;
      } else if ow == Sat {
        limit := min;
      }
      return -1, limit;
    }
    return 0, limit;
  }

  /** max - value and min - value as int64_t, for a value that is not too great. */
  lemma SignedDistances(value: int, bits: nat)
    requires 1 <= bits <= 63 && IsI64(value)
    ensures var max := Pow2(bits - 1) - 1; value <= max ==>
      && ToI64(ToU64(max - value)) == (if TooLow(value, bits) then max - value - U64 else max - value)
      && ToI64(ToU64(0 - max - 1 - value)) == 0 - max - 1 - value
  {
    HalfFits(bits);
    hide Pow2, ToI64, ToU64;
    var max := Pow2(bits - 1) - 1;
    if value <= max {
      I64Exact(0 - max - 1 - value);
      if TooLow(value, bits) {
        I64Wraps(max - value);
      } else {
        I64Exact(max - value);
      }
    }
  }

  lemma HalfFits(bits: nat)
    requires 1 <= bits <= 63
    ensures 2 * Pow2(bits - 1) == Pow2(bits) && 2 * Pow2(bits - 1) <= I63
  {
    HighPart(bits);
  }

  /** handle_wrap of the signed check. */
  method WrapSigned(value: int, incr: int, bits: nat) returns (limit: int)
    requires 1 <= bits <= 63
    ensures FitsSigned(limit, bits) && Congruent(limit, value + incr, Pow2(bits))
  {
    hide Bitwise, FromMsb, Msb, Congruent, IsBits;
    var c := ToU64(ToU64(value) + ToU64(incr));
    SumModulo(value, incr);
    StoredIsCongruent(value + incr, bits);
    SignedRange(Msb(c, bits));
    LowBits(c, bits);
    MaskHigh(c, bits);
    HighPart(bits);
    Pow2Values();
    TestBit(c, bits - 1, 64);
    MsbSuffix(c, 64, bits, 0);
    if Bitwise(And, c, Pow2(bits - 1)) != 0 {
      c := Bitwise(Or, c, HighMask(bits));
    } else {
      c := Bitwise(And, c, Pow2(bits) - 1);
    }
    limit := ToI64(c);
  }

  lemma SumModulo(a: int, b: int)
    ensures ToU64(ToU64(a) + ToU64(b)) == ToU64(a + b)
  {
  }

  // ---------------------------------------------------------------- SET and INCRBY

  datatype Opcode = Set | IncrBy

  /** The nearest number of the range. */
  function Clamp(v: int, low: int, high: int): int {
    if v > high then high else if v < low then low else v
  }

  /** What a saturating operation stores: the nearest number, except that a SET may take the wrong bound. */
  function Saturated(op: Opcode, goal: int, bits: nat, signed: bool): int
    requires bits > 0
  {
    if signed then
      if op == Set && TooLow(goal, bits) then Pow2(bits - 1) - 1 else Clamp(goal, 0 - Pow2(bits - 1), Pow2(bits - 1) - 1)
    else
      if op == Set && goal < 0 then Pow2(bits) - 1 else Clamp(goal, 0, Pow2(bits) - 1)
  }

  /** SATURATION is to the nearest number if and only if the operation is no SET of a number that far below. */
  lemma SaturatedExact(op: Opcode, goal: int, bits: nat)
    requires 1 <= bits <= 63
    ensures Saturated(op, goal, bits, true) == Clamp(goal, 0 - Pow2(bits - 1), Pow2(bits - 1) - 1) <==> !(op == Set && TooLow(goal, bits))
    ensures Saturated(op, goal, bits, false) == Clamp(goal, 0, Pow2(bits) - 1) <==> !(op == Set && goal < 0)
  {
    HalfFits(bits);
  }

  /** The value a field may hold after an operation that aims at goal. */
  ghost predicate Meets(op: Opcode, ow: Overflow, goal: int, value: int, bits: nat, signed: bool)
    requires bits > 0
  {
    var fits := if signed then FitsSigned(goal, bits) else FitsUnsigned(goal, bits);
    if fits then value == goal
    else match ow
      case Wrap => Congruent(value, goal, Pow2(bits))
      case Sat => value == Saturated(op, goal, bits, signed)
      case Fail => false
  }

  /** The signed branch of bitfieldCommand. */
  method ExecSigned(p: array<Byte>, offset: nat, bits: nat, op: Opcode, i64: int, ow: Overflow) returns (reply: Option<int>)
    requires 1 <= bits <= 63 && offset + bits <= 8 * p.Length && IsI64(i64)
    modifies p
    ensures var was := Signed(old(Field(p[..], offset, bits)));
      var goal := if op == IncrBy then was + i64 else i64;
      var value := Signed(Field(p[..], offset, bits));
      && (reply == None <==> ow == Fail && !FitsSigned(goal, bits))
      && (reply == None ==> p[..] == old(p[..]))
      && (reply != None ==> Meets(op, ow, goal, value, bits, true) && reply == Some(if op == IncrBy then value else was))
      && (ow == Sat ==> (value == Clamp(goal, 0 - Pow2(bits - 1), Pow2(bits - 1) - 1) <==> !(op == Set && TooLow(goal, bits))))
    ensures OthersKept(old(StringBits(p[..])), StringBits(p[..]), offset, bits)
  {
    hide Field, StringBits, Msb, Signed, Congruent, IsBits, Pow2, Saturated, ToU64, OthersKept;
    var oldval := GetSignedBitfield(p[..], offset, bits);
    HalfFits(bits);
    var newval, code, wrapped;
    if op == IncrBy {
      newval := ToI64(ToU64(oldval + i64));
      code, wrapped := CheckSignedOverflow(oldval, i64, bits, ow);
      if code == 0 { I64Exact(oldval + i64); }
    } else {
      newval := i64;
      code, wrapped := CheckSignedOverflow(newval, 0, bits, ow);
    }
    if code != 0 { newval := wrapped; }
    ghost var goal := if op == IncrBy then oldval + i64 else i64;
    SaturatedIs(op, goal, bits);
    SaturatedExact(op, goal, bits);
    if code != 0 && ow == Fail {
      KeptAll(StringBits(p[..]), offset, bits);
      return None;
    }
    ghost var row := StringBits(p[..]);
    SetSignedBitfield(p, offset, bits, newval);
    PlacedField(row, p[..], offset, Msb(ToU64(newval), bits));
    StoredIsCongruent(newval, bits);
    return Some(if op == IncrBy then newval else oldval);
  }

  /** A saturating SET of the least int64_t into eight bits stores 127, not -128. */
  method SaturatesToWrongBound(p: array<Byte>) returns (reply: Option<int>)
    requires p.Length > 0
    modifies p
    ensures Signed(Field(p[..], 0, 8)) == 127 && Clamp(0 - I63, -128, 127) == -128
  {
    assert Pow2(7) == 128;
    reply := ExecSigned(p, 0, 8, Set, 0 - I63, Sat);
  }

  lemma SaturatedIs(op: Opcode, goal: int, bits: nat)
    requires 1 <= bits <= 63
    ensures !FitsSigned(goal, bits) ==>
      Saturated(op, goal, bits, true)
      == (if goal >= Pow2(bits - 1) || (op == Set && TooLow(goal, bits)) then Pow2(bits - 1) - 1 else 0 - Pow2(bits - 1))
    ensures FitsSigned(Pow2(bits - 1) - 1, bits) && FitsSigned(0 - Pow2(bits - 1), bits)
  {
  }

  /** No bit outside the field has changed. */
  ghost predicate OthersKept(row: seq<nat>, row': seq<nat>, offset: nat, bits: nat) {
    |row'| == |row| && offset + bits <= |row| && row'[..offset] == row[..offset] && row'[offset + bits..] == row[offset + bits..]
  }

  lemma KeptAll(row: seq<nat>, offset: nat, bits: nat)
    requires offset + bits <= |row|
    ensures OthersKept(row, row, offset, bits)
  {
  }

  lemma PlacedField(row: seq<nat>, p: seq<Byte>, offset: nat, ds: seq<nat>)
    requires offset + |ds| <= |row| == 8 * |p| && StringBits(p) == Placed(row, offset, ds)
    ensures Field(p, offset, |ds|) == ds && OthersKept(row, StringBits(p), offset, |ds|)
  {
    hide StringBits, IsBits;
  }

  /** The unsigned branch of bitfieldCommand. */
  method ExecUnsigned(p: array<Byte>, offset: nat, bits: nat, op: Opcode, i64: int, ow: Overflow) returns (reply: Option<int>)
    requires 1 <= bits <= 63 && offset + bits <= 8 * p.Length && IsI64(i64)
    modifies p
    ensures var was := FromMsb(old(Field(p[..], offset, bits)));
      var goal := if op == IncrBy then was + i64 else i64;
      var value := FromMsb(Field(p[..], offset, bits));
      && (reply == None <==> ow == Fail && !FitsUnsigned(goal, bits))
      && (reply == None ==> p[..] == old(p[..]))
      && (reply != None ==> Meets(op, ow, goal, value, bits, false) && reply == Some(if op == IncrBy then value else was))
      && (ow == Sat ==> (value == Clamp(goal, 0, Pow2(bits) - 1) <==> !(op == Set && goal < 0)))
    ensures OthersKept(old(StringBits(p[..])), StringBits(p[..]), offset, bits)
  {
    hide Field, StringBits, Msb, FromMsb, Congruent, IsBits, Pow2, Saturated, ToU64, OthersKept;
    var oldval := GetUnsignedBitfield(p[..], offset, bits);
    HighPart(bits);
    U64Exact(i64);
    var newval, code, wrapped;
    ghost var goal := if op == IncrBy then oldval + i64 else i64;
    if op == IncrBy {
      newval := ToU64(oldval + i64);
      code, wrapped := CheckUnsignedOverflow(oldval, i64, bits, ow);
      if code == 0 { U64Exact(oldval + i64); }
    } else {
      newval := ToU64(i64);
      ToU64Congruent(i64, bits);
      code, wrapped := CheckUnsignedOverflow(newval, 0, bits, ow);
      if code != 0 && ow == Wrap { CongruentChain(wrapped, newval, i64, Pow2(bits)); }
    }
    if code != 0 { newval := wrapped; }
    SaturatedUnsignedIs(op, goal, bits);
    SaturatedExact(op, goal, bits);
    if code != 0 && ow == Fail {
      KeptAll(StringBits(p[..]), offset, bits);
      return None;
    }
    ghost var row := StringBits(p[..]);
    SetUnsignedBitfield(p, offset, bits, newval);
    PlacedField(row, p[..], offset, Msb(newval, bits));
    FromMsbBack(newval, bits);
    return Some(if op == IncrBy then newval else oldval);
  }

  lemma SaturatedUnsignedIs(op: Opcode, goal: int, bits: nat)
    requires 1 <= bits <= 63
    ensures !FitsUnsigned(goal, bits) ==>
      Saturated(op, goal, bits, false) == if goal < 0 && op == IncrBy then 0 else Pow2(bits) - 1
  {
  }

  // ---------------------------------------------------------------- GET

  /** A field of a string that may end before it: the missing bits are zero. */
  function PaddedField(s: seq<Byte>, offset: nat, bits: nat): seq<nat> {
    seq(bits, i requires 0 <= i < bits => if offset + i < 8 * |s| then StringBits(s)[offset + i] else 0)
  }

  /** The nine bytes that are copied hold the whole field, wherever in its first byte it starts. */
  lemma CopiedField(s: seq<Byte>, buf: seq<Byte>, offset: nat, bits: nat)
    requires bits <= 64 && |buf| == 9
    requires forall i :: 0 <= i < 9 ==> buf[i] == if offset / 8 + i < |s| then s[offset / 8 + i] else 0
    ensures Field(buf, offset % 8, bits) == PaddedField(s, offset, bits)
  {
    hide StringBits, Msb, IsBits;
    var (q, r) := (offset / 8, offset % 8);
    forall i | 0 <= i < bits ensures StringBits(buf)[r + i] == PaddedField(s, offset, bits)[i] {
      var (a, b) := ((r + i) / 8, (r + i) % 8);
      BitOfString(buf, a, b);
      if q + a < |s| {
        BitOfString(s, q + a, b);
      } else {
        ZeroBits(8);
      }
    }
  }

  /** The GET branch of bitfieldCommand; a key that does not exist is an empty string. */
  method ExecGet(s: seq<Byte>, offset: nat, bits: nat, signed: bool) returns (value: int)
    requires 1 <= bits <= 63
    ensures value == if signed then Signed(PaddedField(s, offset, bits)) else FromMsb(PaddedField(s, offset, bits))
  {
    hide PaddedField, StringBits, Signed, FromMsb;
    var buf: seq<Byte> := [];
    var byte := offset / 8;
    for i := 0 to 9
      invariant |buf| == i && forall k :: 0 <= k < i ==> buf[k] == if byte + k < |s| then s[byte + k] else 0
    {
      buf := buf + [if byte + i >= |s| then 0 else s[byte + i]];
    }
    CopiedField(s, buf, offset, bits);
    if signed {
      value := GetSignedBitfield(buf, offset - byte * 8, bits);
    } else {
      value := GetUnsignedBitfield(buf, offset - byte * 8, bits);
    }
  }
}
