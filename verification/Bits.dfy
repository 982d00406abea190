/**
 Machine words as natural numbers: the bitwise operators of C on unsigned integers, bit by bit from
 the lowest, and what they come to on numbers built from parts.
 */
module Bits {

  function Pow2(k: nat): (p: nat)
    ensures p > 0
  {
    if k == 0 then 1 else 2 * Pow2(k - 1)
  }

  lemma Pow2Byte(k: nat)
    ensures Pow2(k + 8) == 256 * Pow2(k)
  {
    assert Pow2(k + 2) == 2 * Pow2(k + 1) == 4 * Pow2(k);
    assert Pow2(k + 4) == 2 * Pow2(k + 3) == 4 * Pow2(k + 2);
    assert Pow2(k + 6) == 2 * Pow2(k + 5) == 4 * Pow2(k + 4);
    assert Pow2(k + 8) == 2 * Pow2(k + 7) == 4 * Pow2(k + 6);
  }

  lemma Pow2Values()
    ensures Pow2(8) == 0x100 && Pow2(16) == 0x1_0000 && Pow2(32) == 0x1_0000_0000
    ensures Pow2(63) == 0x8000_0000_0000_0000 && Pow2(64) == 0x1_0000_0000_0000_0000
  {
    assert Pow2(0) == 1;
    assert Pow2(64) == 2 * Pow2(63);
    hide Pow2;
    Pow2Byte(0);
    Pow2Byte(8);
    Pow2Byte(16);
    Pow2Byte(24);
    Pow2Byte(32);
    Pow2Byte(40);
    Pow2Byte(48);
    Pow2Byte(56);
  }

  datatype BitOp = And | Or | Xor

  function OnBit(op: BitOp, a: nat, b: nat): (r: nat)
    requires a < 2 && b < 2
    ensures r < 2
  {
    match op
    case And => a * b
    case Or => if a + b > 0 then 1 else 0
    case Xor => (a + b) % 2
  }

  /** x op y */
  function Bitwise(op: BitOp, x: nat, y: nat): (r: nat)
    decreases x + y
  {
    if x == 0 && y == 0 then 0 else OnBit(op, x % 2, y % 2) + 2 * Bitwise(op, x / 2, y / 2)
  }

  lemma BitwiseStep(op: BitOp, a: nat, b: nat, c: nat, d: nat)
    requires b < 2 && d < 2
    ensures Bitwise(op, 2 * a + b, 2 * c + d) == 2 * Bitwise(op, a, c) + OnBit(op, b, d)
  {
    assert (2 * a + b) / 2 == a && (2 * a + b) % 2 == b;
    assert (2 * c + d) / 2 == c && (2 * c + d) % 2 == d;
  }

  lemma {:induction false} BitwiseBound(op: BitOp, x: nat, y: nat, k: nat)
    requires x < Pow2(k) && y < Pow2(k)
    ensures Bitwise(op, x, y) < Pow2(k)
  {
    if k > 0 {
      BitwiseBound(op, x / 2, y / 2, k - 1);
    }
  }

  /** a shifted left by k bits, with b in the bits that become free. */
  function Join(k: nat, a: nat, b: nat): nat {
    if k == 0 then a else 2 * Join(k - 1, a, b / 2) + b % 2
  }

  lemma {:induction false} JoinIs(k: nat, a: nat, b: nat)
    requires b < Pow2(k)
    ensures Join(k, a, b) == a * Pow2(k) + b
  {
    if k > 0 {
      var p := Pow2(k - 1);
      JoinIs(k - 1, a, b / 2);
      Twice(a, p);
    }
  }

  lemma Twice(a: nat, p: nat)
    ensures a * (2 * p) == 2 * (a * p) && (2 * p) * a == 2 * (p * a)
  {
  }

  /** One byte. */
  lemma JoinByte(a: nat, b: nat)
    requires b < 256
    ensures Join(8, a, b) == 256 * a + b && b < Pow2(8)
  {
    Pow2Values();
    JoinIs(8, a, b);
  }

  /** The operators work on the low k bits and on the rest by themselves. */
  lemma {:induction false} BitwiseSplit(op: BitOp, k: nat, a: nat, b: nat, c: nat, d: nat)
    requires b < Pow2(k) && d < Pow2(k)
    ensures Bitwise(op, Join(k, a, b), Join(k, c, d)) == Join(k, Bitwise(op, a, c), Bitwise(op, b, d))
  {
    hide Bitwise, OnBit;
    if k > 0 {
      BitwiseSplit(op, k - 1, a, b / 2, c, d / 2);
      BitwiseStep(op, Join(k - 1, a, b / 2), b % 2, Join(k - 1, c, d / 2), d % 2);
      BitwiseStep(op, b / 2, b % 2, d / 2, d % 2);
      var r := Bitwise(op, b, d);
      assert r / 2 == Bitwise(op, b / 2, d / 2) && r % 2 == OnBit(op, b % 2, d % 2);
    }
  }

  /** x & (2^k - 1) keeps the low k bits. */
  lemma {:induction false} AndLow(k: nat, q: nat, r: nat)
    requires r < Pow2(k)
    ensures Bitwise(And, Join(k, q, r), Pow2(k) - 1) == r
  {
    if k == 0 {
      AndZero(q);
    } else {
      hide Bitwise;
      AndLow(k - 1, q, r / 2);
      BitwiseStep(And, Join(k - 1, q, r / 2), r % 2, Pow2(k - 1) - 1, 1);
    }
  }

  lemma DivModUnique(x: nat, m: nat, q: nat, r: nat)
    requires m > 0 && x == q * m + r && r < m
    ensures x / m == q && x % m == r
  {
    var d := x / m - q;
    assert d * m + x % m == r;
    assert d > 0 ==> d * m >= m;
    assert d < 0 ==> d * m + m <= 0;
  }

  lemma {:induction false} AndZero(x: nat)
    ensures Bitwise(And, x, 0) == 0
  {
    if x > 0 {
      AndZero(x / 2);
    }
  }

  lemma {:induction false} OrZero(x: nat)
    ensures Bitwise(Or, x, 0) == x && Bitwise(Or, 0, x) == x
  {
    if x > 0 {
      OrZero(x / 2);
    }
  }

  /** The operators work byte by byte. */
  lemma ByteSplit(op: BitOp, x: nat, a: nat, y: nat, b: nat)
    requires a < 256 && b < 256
    ensures Bitwise(op, 256 * x + a, 256 * y + b) == 256 * Bitwise(op, x, y) + Bitwise(op, a, b)
    ensures Bitwise(op, a, b) < 256
  {
    hide Bitwise, Join, Pow2;
    Pow2Values();
    JoinByte(x, a);
    JoinByte(y, b);
    BitwiseSplit(op, 8, x, a, y, b);
    BitwiseBound(op, a, b, 8);
    JoinByte(Bitwise(op, x, y), Bitwise(op, a, b));
  }

  lemma {:induction false} Pow2Grows(a: nat, b: nat)
    requires a <= b
    ensures Pow2(a) <= Pow2(b)
  {
    if a < b {
      Pow2Grows(a, b - 1);
    }
  }
}
