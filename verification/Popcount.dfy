/**
 Counting the one bits of a string 28 bytes at a time (redisPopcount). A machine word is a natural
 number; what the masks and shifts do to it is followed on its digits, lowest first, in bases 2, 4,
 16 and 256.
 */
module Popcount {
  import opened Common
  import opened Bits

  // ---------------------------------------------------------------- what is counted

  /** The lowest n binary digits. */
  function BitsOf(x: nat, n: nat): (ds: seq<nat>)
    ensures |ds| == n && forall i :: 0 <= i < n ==> ds[i] < 2
  {
    if n == 0 then [] else [x % 2] + BitsOf(x / 2, n - 1)
  }

  function Sum(ds: seq<nat>): nat {
    if ds == [] then 0 else ds[0] + Sum(ds[1..])
  }

  /** The number of one bits of a byte. */
  function Ones(b: Byte): nat {
    Sum(BitsOf(b, 8))
  }

  /** The number of one bits of the first n bytes. */
  function OnesIn(s: seq<Byte>, n: nat): nat
    requires n <= |s|
  {
    if n == 0 then 0 else OnesIn(s, n - 1) + Ones(s[n - 1])
  }

  // ---------------------------------------------------------------- numbers and their digits

  /** The number with the given digits in base 2^k. */
  function Value(k: nat, ds: seq<nat>): nat {
    if ds == [] then 0 else Join(k, Value(k, ds[1..]), ds[0])
  }

  ghost predicate Below(ds: seq<nat>, m: nat) {
    forall i :: 0 <= i < |ds| ==> ds[i] < m
  }

  /** Every second digit, with zeros in between. */
  function Keep(ds: seq<nat>): seq<nat> {
    if |ds| < 2 then ds else [ds[0], 0] + Keep(ds[2..])
  }

  /** A mask that keeps every second digit. */
  function Mask(k: nat, n: nat): seq<nat> {
    if n == 0 then [] else if n == 1 then [Pow2(k) - 1] else [Pow2(k) - 1, 0] + Mask(k, n - 2)
  }

  /** Neighbouring digits added up, two by two. */
  function PairSums(ds: seq<nat>): seq<nat> {
    if |ds| < 2 then ds else [ds[0] + ds[1]] + PairSums(ds[2..])
  }

  lemma {:induction false} AndKeeps(k: nat, ds: seq<nat>)
    requires Below(ds, Pow2(k))
    ensures Bitwise(And, Value(k, ds), Value(k, Mask(k, |ds|))) == Value(k, Keep(ds))
    decreases |ds|
  {
    hide Bitwise, Join;
    if ds == [] {
      AndZero(0);
    } else {
      var full := Pow2(k) - 1;
      AndLow(k, 0, ds[0]);
      NoHigh(k, ds[0]);
      if |ds| == 1 {
        BitwiseSplit(And, k, 0, ds[0], 0, full);
        AndZero(0);
      } else {
        var rest := ds[2..];
        AndKeeps(k, rest);
        AndZero(ds[1]);
        BitwiseSplit(And, k, Value(k, rest), ds[1], Value(k, Mask(k, |rest|)), 0);
        BitwiseSplit(And, k, Value(k, ds[1..]), ds[0], Join(k, Value(k, Mask(k, |rest|)), 0), full);
        TwoDigits(k, ds);
        TwoDigits(k, Mask(k, |ds|));
        TwoDigits(k, Keep(ds));
      }
    }
  }

  lemma TwoDigits(k: nat, ds: seq<nat>)
    requires |ds| >= 2
    ensures Value(k, ds[1..]) == Join(k, Value(k, ds[2..]), ds[1])
    ensures Value(k, ds) == Join(k, Join(k, Value(k, ds[2..]), ds[1]), ds[0])
  {
    assert ds[1..][1..] == ds[2..];
  }

  lemma {:induction false} NoHigh(k: nat, x: nat)
    requires x < Pow2(k)
    ensures Join(k, 0, x) == x
  {
    if k > 0 {
      NoHigh(k - 1, x / 2);
    }
  }

  /** The same number, written with products. */
  function Number(base: nat, ds: seq<nat>): nat {
    if ds == [] then 0 else ds[0] + base * Number(base, ds[1..])
  }

  lemma {:induction false} ValueIsNumber(k: nat, ds: seq<nat>)
    requires Below(ds, Pow2(k))
    ensures Value(k, ds) == Number(Pow2(k), ds)
  {
    hide Join;
    if ds != [] {
      ValueIsNumber(k, ds[1..]);
      JoinIs(k, Value(k, ds[1..]), ds[0]);
    }
  }

  lemma {:induction false} NumberBound(base: nat, ds: seq<nat>, n: nat)
    requires Below(ds, base) && base > 0 && |ds| == n
    ensures Number(base, ds) < Power(base, n)
  {
    if n > 0 {
      NumberBound(base, ds[1..], n - 1);
      BoundStep(base, Number(base, ds[1..]), Power(base, n - 1), ds[0]);
    }
  }

  lemma BoundStep(base: nat, x: nat, p: nat, d: nat)
    requires x < p && d < base
    ensures d + base * x < base * p
  {
    assert base * (x + 1) <= base * p;
  }

  function Power(base: nat, n: nat): nat {
    if n == 0 then 1 else base * Power(base, n - 1)
  }

  lemma NumberTwo(base: nat, a: nat, b: nat, rest: seq<nat>)
    ensures Number(base, [a, b] + rest) == a + base * b + (base * base) * Number(base, rest)
  {
    var ds := [a, b] + rest;
    assert ds[1..] == [b] + rest && ([b] + rest)[1..] == rest;
    var n := Number(base, rest);
    assert Number(base, [b] + rest) == b + base * n;
    assert base * (b + base * n) == base * b + base * (base * n);
    assert base * (base * n) == (base * base) * n;
  }

  /** Shifted right by one digit. */
  function Tail(ds: seq<nat>): seq<nat> {
    if ds == [] then [] else ds[1..] + [0]
  }

  lemma {:induction false} NumberTail(base: nat, ds: seq<nat>)
    requires Below(ds, base) && ds != [] && base > 0
    ensures Number(base, Tail(ds)) == Number(base, ds[1..]) == Number(base, ds) / base
  {
    NumberZero(base, ds[1..]);
    DivModUnique(Number(base, ds), base, Number(base, ds[1..]), ds[0]);
  }

  lemma {:induction false} NumberZero(base: nat, ds: seq<nat>)
    ensures Number(base, ds + [0]) == Number(base, ds)
  {
    if ds == [] {
      assert [0][1..] == [];
    } else {
      assert (ds + [0])[1..] == ds[1..] + [0];
      NumberZero(base, ds[1..]);
    }
  }

  lemma Regroup(base: nat, a: nat, b: nat, x: nat, y: nat)
    ensures (a + base * 0 + (base * base) * x) + (b + base * 0 + (base * base) * y) == (a + b) + (base * base) * (x + y)
    ensures (a + base * 0 + (base * base) * x) + base * (b + base * 0 + (base * base) * y)
         == a + base * b + (base * base) * (x + base * y)
  {
    var square := base * base;
    assert square * (x + y) == square * x + square * y;
    assert square * (x + base * y) == square * x + square * (base * y);
    assert square * (base * y) == base * (square * y);
    assert base * (b + square * y) == base * b + base * (square * y);
  }

  lemma TailShape(ds: seq<nat>)
    requires |ds| >= 2
    ensures |Tail(ds)| == |ds| && Tail(ds)[0] == ds[1] && Tail(ds)[2..] == Tail(ds[2..])
  {
    var t := ds[1..] + [0];
    if |ds| == 2 {
      assert t[2..] == [];
    } else {
      assert t[2..] == ds[3..] + [0] && ds[2..][1..] == ds[3..];
    }
  }

  lemma KeepShape(ds: seq<nat>)
    requires |ds| >= 2
    ensures Keep(ds) == [ds[0], 0] + Keep(ds[2..])
  {
  }

  lemma KeepTailShape(ds: seq<nat>)
    requires |ds| >= 2
    ensures Keep(Tail(ds)) == [ds[1], 0] + Keep(Tail(ds[2..]))
  {
    TailShape(ds);
    hide Tail;
    KeepShape(Tail(ds));
  }

  lemma PairSumsShape(ds: seq<nat>)
    requires |ds| >= 2
    ensures PairSums(ds) == [ds[0] + ds[1]] + PairSums(ds[2..])
  {
  }

  /** Every second digit and the others in between: together they are the sums of pairs, in the square of the base. */
  lemma {:induction false} KeepBoth(base: nat, ds: seq<nat>)
    requires |ds| % 2 == 0
    ensures Number(base, Keep(ds)) + Number(base, Keep(Tail(ds))) == Number(base * base, PairSums(ds))
    ensures Number(base, Keep(ds)) + base * Number(base, Keep(Tail(ds))) == Number(base, ds)
    decreases |ds|
  {
    if ds != [] {
      var (a, b, rest) := (ds[0], ds[1], ds[2..]);
      hide Keep, Tail, PairSums;
      KeepBoth(base, rest);
      assert ds == [a, b] + rest;
      KeepShape(ds);
      KeepTailShape(ds);
      PairSumsShape(ds);
      NumberTwo(base, a, 0, Keep(rest));
      NumberTwo(base, b, 0, Keep(Tail(rest)));
      NumberTwo(base, a, b, rest);
      NumberFirst(base * base, a + b, PairSums(rest));
      hide Number;
      Regroup(base, a, b, Number(base, Keep(rest)), Number(base, Keep(Tail(rest))));
    }
  }

  lemma NumberFirst(base: nat, d: nat, rest: seq<nat>)
    ensures Number(base, [d] + rest) == d + base * Number(base, rest)
  {
    assert ([d] + rest)[1..] == rest;
  }

  /** Digit by digit; nothing is carried as long as the sums stay below the base. */
  function Plus(xs: seq<nat>, ys: seq<nat>): seq<nat>
    requires |xs| == |ys|
  {
    if xs == [] then [] else [xs[0] + ys[0]] + Plus(xs[1..], ys[1..])
  }

  lemma {:induction false} PlusAt(xs: seq<nat>, ys: seq<nat>)
    requires |xs| == |ys|
    ensures |Plus(xs, ys)| == |xs| && forall i :: 0 <= i < |xs| ==> Plus(xs, ys)[i] == xs[i] + ys[i]
  {
    if xs != [] {
      PlusAt(xs[1..], ys[1..]);
    }
  }

  lemma {:induction false} NumberPlus(base: nat, xs: seq<nat>, ys: seq<nat>)
    requires |xs| == |ys|
    ensures Number(base, Plus(xs, ys)) == Number(base, xs) + Number(base, ys)
  {
    if xs != [] {
      NumberPlus(base, xs[1..], ys[1..]);
      NumberFirst(base, xs[0] + ys[0], Plus(xs[1..], ys[1..]));
      Distribute(base, Number(base, xs[1..]), Number(base, ys[1..]));
    }
  }

  lemma Distribute(base: nat, x: nat, y: nat)
    ensures base * (x + y) == base * x + base * y
  {
  }

  lemma {:induction false} KeepPlus(base: nat, xs: seq<nat>, ys: seq<nat>)
    requires |xs| == |ys| && |xs| % 2 == 0
    ensures |Plus(xs, ys)| == |xs|
    ensures Number(base, Keep(Plus(xs, ys))) == Number(base, Keep(xs)) + Number(base, Keep(ys))
    decreases |xs|
  {
    PlusAt(xs, ys);
    if xs != [] {
      var (xs', ys') := (xs[2..], ys[2..]);
      PlusAt(xs', ys');
      KeepPlus(base, xs', ys');
      assert Plus(xs, ys)[2..] == Plus(xs', ys');
      hide Plus, Number;
      KeepShape(xs);
      KeepShape(ys);
      KeepShape(Plus(xs, ys));
      hide Keep;
      NumberTwo(base, xs[0], 0, Keep(xs'));
      NumberTwo(base, ys[0], 0, Keep(ys'));
      NumberTwo(base, xs[0] + ys[0], 0, Keep(Plus(xs', ys')));
      Distribute(base * base, Number(base, Keep(xs')), Number(base, Keep(ys')));
    }
  }

  lemma {:induction false} PairSumsBound(ds: seq<nat>, m: nat)
    requires Below(ds, m + 1) && |ds| % 2 == 0
    ensures Below(PairSums(ds), 2 * m + 1) && |PairSums(ds)| == |ds| / 2
    decreases |ds|
  {
    if ds != [] {
      PairSumsBound(ds[2..], m);
    }
  }

  // ---------------------------------------------------------------- the three lines of the source

  const U32: nat := 0x1_0000_0000

  /** aux - ((aux >> 1) & 0x55555555) */
  function Line1(aux: nat): nat {
    (aux - Bitwise(And, aux / 2, 0x5555_5555)) % U32
  }

  /** (aux & 0x33333333) + ((aux >> 2) & 0x33333333) */
  function Line2(aux: nat): nat {
    (Bitwise(And, aux, 0x3333_3333) + Bitwise(And, aux / 4, 0x3333_3333)) % U32
  }

  /** (aux + (aux >> 4)) & 0x0F0F0F0F */
  function Line3(aux: nat): nat {
    Bitwise(And, (aux + aux / 16) % U32, 0x0f0f_0f0f)
  }

  function MaskNumber(base: nat, n: nat): nat
    requires base > 0
  {
    if n < 2 then 0 else base - 1 + (base * base) * MaskNumber(base, n - 2)
  }

  lemma {:induction false} MaskIs(k: nat, n: nat)
    requires n % 2 == 0
    ensures Below(Mask(k, n), Pow2(k)) && |Mask(k, n)| == n
    ensures Number(Pow2(k), Mask(k, n)) == MaskNumber(Pow2(k), n)
  {
    if n >= 2 {
      MaskIs(k, n - 2);
      hide Number;
      NumberTwo(Pow2(k), Pow2(k) - 1, 0, Mask(k, n - 2));
    }
  }

  lemma Constants()
    ensures Pow2(1) == 2 && Pow2(2) == 4 && Pow2(4) == 16
    ensures MaskNumber(2, 32) == 0x5555_5555 && MaskNumber(4, 16) == 0x3333_3333 && MaskNumber(16, 8) == 0x0f0f_0f0f
    ensures Power(2, 32) == U32 && Power(4, 16) == U32 && Power(16, 8) == U32
  {
    assert MaskNumber(2, 8) == 0x55 && MaskNumber(2, 16) == 0x5555 && MaskNumber(2, 24) == 0x55_5555;
    assert MaskNumber(4, 8) == 0x3333 && Power(2, 8) == 256 && Power(2, 16) == 65536 && Power(2, 24) == 256 * 65536;
    assert Power(4, 8) == 65536 && Power(16, 4) == 65536;
  }

  /** Masking every second digit, in the terms of the source. */
  lemma AndMask(k: nat, base: nat, ds: seq<nat>, mask: nat)
    requires base == Pow2(k) && Below(ds, base) && |ds| % 2 == 0 && mask == MaskNumber(base, |ds|)
    ensures Bitwise(And, Number(base, ds), mask) == Number(base, Keep(ds))
  {
    hide Bitwise, Keep, Value, Mask, Number, MaskNumber;
    AndKeeps(k, ds);
    ValueIsNumber(k, ds);
    MaskIs(k, |ds|);
    ValueIsNumber(k, Mask(k, |ds|));
    KeepBelow(ds, base);
    ValueIsNumber(k, Keep(ds));
  }

  lemma {:induction false} KeepBelow(ds: seq<nat>, m: nat)
    requires Below(ds, m) && m > 0
    ensures Below(Keep(ds), m)
    decreases |ds|
  {
    if |ds| >= 2 {
      KeepBelow(ds[2..], m);
    }
  }

  lemma TailBelow(ds: seq<nat>, m: nat)
    requires Below(ds, m) && m > 0
    ensures Below(Tail(ds), m) && |Tail(ds)| == |ds|
  {
  }

  lemma Line1Sums(ds: seq<nat>)
    requires |ds| == 32 && Below(ds, 2)
    ensures Line1(Number(2, ds)) == Number(4, PairSums(ds))
  {
    hide Bitwise, Number, Keep, Tail, PairSums, MaskNumber, Power;
    Constants();
    TailBelow(ds, 2);
    NumberTail(2, ds);
    AndMask(1, 2, Tail(ds), 0x5555_5555);
    KeepBoth(2, ds);
    NumberBound(2, ds, 32);
  }

  lemma Line2Sums(ds: seq<nat>)
    requires |ds| == 16 && Below(ds, 3)
    ensures Line2(Number(4, ds)) == Number(16, PairSums(ds))
  {
    hide Bitwise, Number, Keep, Tail, PairSums, MaskNumber, Power;
    Constants();
    TailBelow(ds, 4);
    NumberTail(4, ds);
    AndMask(2, 4, ds, 0x3333_3333);
    AndMask(2, 4, Tail(ds), 0x3333_3333);
    KeepBoth(4, ds);
    PairSumsBound(ds, 2);
    NumberBound(16, PairSums(ds), 8);
  }

  lemma Line3Sums(ds: seq<nat>)
    requires |ds| == 8 && Below(ds, 5)
    ensures Line3(Number(16, ds)) == Number(256, PairSums(ds))
  {
    hide Bitwise, Number, Keep, Tail, PairSums, MaskNumber, Power, Plus;
    Constants();
    TailBelow(ds, 5);
    NumberTail(16, ds);
    var ns := Plus(ds, Tail(ds));
    PlusAt(ds, Tail(ds));
    NumberPlus(16, ds, Tail(ds));
    NumberBound(16, ns, 8);
    AndMask(4, 16, ns, 0x0f0f_0f0f);
    KeepPlus(16, ds, Tail(ds));
    KeepBoth(16, ds);
  }

  // ---------------------------------------------------------------- words of four bytes

  lemma AppendShape(xs: seq<nat>, ys: seq<nat>)
    requires |xs| >= 2
    ensures (xs + ys)[0] == xs[0] && (xs + ys)[1] == xs[1] && (xs + ys)[2..] == xs[2..] + ys
  {
  }

  lemma Consed(a: nat, xs: seq<nat>, ys: seq<nat>)
    ensures [a] + (xs + ys) == ([a] + xs) + ys
  {
  }

  lemma {:induction false} PairSumsAppend(xs: seq<nat>, ys: seq<nat>)
    requires |xs| % 2 == 0
    ensures PairSums(xs + ys) == PairSums(xs) + PairSums(ys)
    decreases |xs|
  {
    if xs == [] {
      assert xs + ys == ys;
    } else {
      hide PairSums;
      PairSumsAppend(xs[2..], ys);
      AppendShape(xs, ys);
      PairSumsShape(xs);
      PairSumsShape(xs + ys);
      Consed(xs[0] + xs[1], PairSums(xs[2..]), PairSums(ys));
    }
  }

  lemma {:induction false} SumPairs(xs: seq<nat>)
    requires |xs| % 2 == 0
    ensures Sum(PairSums(xs)) == Sum(xs) && |PairSums(xs)| == |xs| / 2
    decreases |xs|
  {
    if xs != [] {
      SumPairs(xs[2..]);
      assert xs[1..][1..] == xs[2..];
      assert PairSums(xs)[1..] == PairSums(xs[2..]);
    }
  }

  function Counted(xs: seq<nat>): seq<nat> {
    PairSums(PairSums(PairSums(xs)))
  }

  /** Three times two by two: the bits of a byte become their sum. */
  lemma CountedByte(xs: seq<nat>, rest: seq<nat>)
    requires |xs| == 8
    ensures Counted(xs + rest) == [Sum(xs)] + Counted(rest)
  {
    hide PairSums, Sum;
    var (ys, zs) := (PairSums(xs), PairSums(PairSums(xs)));
    SumPairs(xs);
    SumPairs(ys);
    SumPairs(zs);
    PairSumsAppend(xs, rest);
    PairSumsAppend(ys, PairSums(rest));
    PairSumsAppend(zs, PairSums(PairSums(rest)));
    OneDigit(PairSums(zs));
  }

  lemma OneDigit(ds: seq<nat>)
    requires |ds| == 1
    ensures ds == [Sum(ds)]
  {
    assert ds[1..] == [];
  }

  lemma {:induction false} NumberOfBits(x: nat, n: nat, rest: seq<nat>)
    requires x < Power(2, n)
    ensures Number(2, BitsOf(x, n) + rest) == x + Power(2, n) * Number(2, rest)
  {
    if n == 0 {
      assert BitsOf(x, n) + rest == rest;
    } else {
      NumberOfBits(x / 2, n - 1, rest);
      assert BitsOf(x, n) + rest == [x % 2] + (BitsOf(x / 2, n - 1) + rest);
      hide Number, BitsOf;
      NumberFirst(2, x % 2, BitsOf(x / 2, n - 1) + rest);
      Twice(Number(2, rest), Power(2, n - 1));
    }
  }

  /** A 32-bit load. */
  function Word(a: Byte, b: Byte, c: Byte, d: Byte): nat {
    a + 256 * b + 65536 * c + 16777216 * d
  }

  function WordBits(a: Byte, b: Byte, c: Byte, d: Byte): (ds: seq<nat>)
    ensures |ds| == 32 && Below(ds, 2)
  {
    BitsOf(a, 8) + (BitsOf(b, 8) + (BitsOf(c, 8) + BitsOf(d, 8)))
  }

  lemma WordIsBits(a: Byte, b: Byte, c: Byte, d: Byte)
    ensures Number(2, WordBits(a, b, c, d)) == Word(a, b, c, d)
  {
    hide Number, BitsOf;
    assert Power(2, 8) == 256;
    hide Power;
    NumberOfBits(a, 8, BitsOf(b, 8) + (BitsOf(c, 8) + BitsOf(d, 8)));
    NumberOfBits(b, 8, BitsOf(c, 8) + BitsOf(d, 8));
    NumberOfBits(c, 8, BitsOf(d, 8));
    NumberOfBits(d, 8, []);
    assert BitsOf(d, 8) + [] == BitsOf(d, 8);
    NumberNone(2);
  }

  lemma NumberNone(base: nat)
    ensures Number(base, []) == 0
  {
  }

  lemma WordCounted(a: Byte, b: Byte, c: Byte, d: Byte)
    ensures Counted(WordBits(a, b, c, d)) == [Ones(a), Ones(b), Ones(c), Ones(d)]
  {
    hide Sum, BitsOf;
    CountedByte(BitsOf(a, 8), BitsOf(b, 8) + (BitsOf(c, 8) + BitsOf(d, 8)));
    CountedByte(BitsOf(b, 8), BitsOf(c, 8) + BitsOf(d, 8));
    CountedByte(BitsOf(c, 8), BitsOf(d, 8));
    CountedByte(BitsOf(d, 8), []);
    assert BitsOf(d, 8) + [] == BitsOf(d, 8);
    NothingCounted();
  }

  lemma NothingCounted()
    ensures Counted([]) == []
  {
  }

  /** Four counts, one in each byte of a word. */
  function Lanes(a: nat, b: nat, c: nat, d: nat): nat {
    a + 256 * b + 65536 * c + 16777216 * d
  }

  lemma NumberIsLanes(a: nat, b: nat, c: nat, d: nat)
    ensures Number(256, [a, b, c, d]) == Lanes(a, b, c, d)
  {
    hide Number;
    assert [a, b, c, d] == [a] + [b, c, d] && [b, c, d] == [b] + [c, d] && [c, d] == [c] + [d] && [d] == [d] + [];
    NumberFirst(256, a, [b, c, d]);
    NumberFirst(256, b, [c, d]);
    NumberFirst(256, c, [d]);
    NumberFirst(256, d, []);
    NumberNone(256);
  }

  /** The three lines put the number of one bits of every byte into that byte. */
  lemma LinesCount(a: Byte, b: Byte, c: Byte, d: Byte)
    ensures Line3(Line2(Line1(Word(a, b, c, d)))) == Lanes(Ones(a), Ones(b), Ones(c), Ones(d))
  {
    hide Number, PairSums, Line1, Line2, Line3, WordBits, Ones;
    var bits := WordBits(a, b, c, d);
    WordIsBits(a, b, c, d);
    Line1Sums(bits);
    PairSumsBound(bits, 1);
    Line2Sums(PairSums(bits));
    PairSumsBound(PairSums(bits), 2);
    Line3Sums(PairSums(PairSums(bits)));
    WordCounted(a, b, c, d);
    NumberIsLanes(Ones(a), Ones(b), Ones(c), Ones(d));
  }

  lemma {:induction false} SumBound(ds: seq<nat>)
    requires Below(ds, 2)
    ensures Sum(ds) <= |ds|
  {
    if ds != [] {
      SumBound(ds[1..]);
    }
  }

  lemma OnesBound(b: Byte)
    ensures Ones(b) <= 8
  {
    SumBound(BitsOf(b, 8));
  }

  /** The multiplication adds up the four lanes in the highest byte, unless they are too large. */
  lemma MultiplySums(a: nat, b: nat, c: nat, d: nat)
    requires a + b + c + d < 256
    ensures ((Lanes(a, b, c, d) * 0x0101_0101) % U32) / 16777216 == a + b + c + d
  {
    var t := Lanes(a, b, c, d);
    var low := a + 256 * (a + b) + 65536 * (a + b + c);
    var high := (b + c + d) + 256 * (c + d) + 65536 * d;
    assert t * 0x0101_0101 == low + 16777216 * (a + b + c + d) + U32 * high;
    DivModUnique(t * 0x0101_0101, U32, high, low + 16777216 * (a + b + c + d));
    DivModUnique(low + 16777216 * (a + b + c + d), 16777216, a + b + c + d, low);
  }

  // ---------------------------------------------------------------- redisPopcount

  /** One of the seven words of a round. */
  function Folded(s: seq<Byte>, i: nat): nat
    requires i + 4 <= |s|
  {
    Line3(Line2(Line1(Word(s[i], s[i + 1], s[i + 2], s[i + 3]))))
  }

  lemma FoldedIs(s: seq<Byte>, i: nat) returns (a: nat, b: nat, c: nat, d: nat)
    requires i + 4 <= |s|
    ensures Folded(s, i) == Lanes(a, b, c, d) && a <= 8 && b <= 8 && c <= 8 && d <= 8
    ensures OnesIn(s, i + 4) == OnesIn(s, i) + a + b + c + d
  {
    a, b, c, d := Ones(s[i]), Ones(s[i + 1]), Ones(s[i + 2]), Ones(s[i + 3]);
    hide Ones, Line1, Line2, Line3;
    OnesBound(s[i]);
    OnesBound(s[i + 1]);
    OnesBound(s[i + 2]);
    OnesBound(s[i + 3]);
    LinesCount(s[i], s[i + 1], s[i + 2], s[i + 3]);
    assert OnesIn(s, i + 4) == OnesIn(s, i + 3) + d && OnesIn(s, i + 3) == OnesIn(s, i + 2) + c;
    assert OnesIn(s, i + 2) == OnesIn(s, i + 1) + b && OnesIn(s, i + 1) == OnesIn(s, i) + a;
  }

  /** A round counts the one bits of 28 bytes, and no sum in it overflows. */
  lemma RoundCounts(s: seq<Byte>, i: nat)
    requires i + 28 <= |s|
    ensures var sum := Folded(s, i) + Folded(s, i + 4) + Folded(s, i + 8) + Folded(s, i + 12)
                       + Folded(s, i + 16) + Folded(s, i + 20) + Folded(s, i + 24);
      sum < U32 && OnesIn(s, i + 28) == OnesIn(s, i) + ((sum * 0x0101_0101) % U32) / 16777216
  {
    hide Folded, OnesIn;
    var a1, b1, c1, d1 := FoldedIs(s, i);
    var a2, b2, c2, d2 := FoldedIs(s, i + 4);
    var a3, b3, c3, d3 := FoldedIs(s, i + 8);
    var a4, b4, c4, d4 := FoldedIs(s, i + 12);
    var a5, b5, c5, d5 := FoldedIs(s, i + 16);
    var a6, b6, c6, d6 := FoldedIs(s, i + 20);
    var a7, b7, c7, d7 := FoldedIs(s, i + 24);
    MultiplySums(a1 + a2 + a3 + a4 + a5 + a6 + a7, b1 + b2 + b3 + b4 + b5 + b6 + b7,
                 c1 + c2 + c3 + c4 + c5 + c6 + c7, d1 + d2 + d3 + d4 + d5 + d6 + d7);
  }

  /** redisPopcount, for a string that starts at the given address. */
  method RedisPopcount(s: seq<Byte>, address: nat) returns (bits: nat)
    ensures bits == OnesIn(s, |s|)
  {
    hide Folded, Ones;
    var i := 0;
    bits := 0;
    while (address + i) % 4 != 0 && i < |s|
      invariant i <= |s| && bits == OnesIn(s, i)
      decreases |s| - i
    {
      bits := bits + Ones(s[i]);
      i := i + 1;
    }
    while |s| - i >= 28
      invariant i <= |s| && bits == OnesIn(s, i)
    {
      RoundCounts(s, i);
      var sum := (Folded(s, i) + Folded(s, i + 4) + Folded(s, i + 8) + Folded(s, i + 12)
                  + Folded(s, i + 16) + Folded(s, i + 20) + Folded(s, i + 24)) % U32;
      bits := bits + ((sum * 0x0101_0101) % U32) / 16777216;
      i := i + 28;
    }
    while i < |s|
      invariant i <= |s| && bits == OnesIn(s, i)
    {
      bits := bits + Ones(s[i]);
      i := i + 1;
    }
  }
}
