/** Strings as rows of bits: bit 0 is the most significant bit of the first byte. */
module BitString {
  import opened Common
  import opened Bits

  ghost predicate IsBits(ds: seq<nat>) {
    forall i :: 0 <= i < |ds| ==> ds[i] < 2
  }

  /** The n lowest bits of x, the most significant first. */
  function Msb(x: nat, n: nat): (ds: seq<nat>)
    ensures |ds| == n && IsBits(ds)
  {
    if n == 0 then [] else Msb(x / 2, n - 1) + [x % 2]
  }

  /** The number a row of bits stands for, the most significant first. */
  function FromMsb(ds: seq<nat>): nat {
    if ds == [] then 0 else 2 * FromMsb(ds[..|ds| - 1]) + ds[|ds| - 1]
  }

  lemma {:induction false} FromMsbBack(x: nat, n: nat)
    requires x < Pow2(n)
    ensures FromMsb(Msb(x, n)) == x
  {
    if n > 0 {
      FromMsbBack(x / 2, n - 1);
      assert Msb(x, n)[..n - 1] == Msb(x / 2, n - 1);
    }
  }

  lemma {:induction false} MsbBack(ds: seq<nat>)
    requires IsBits(ds)
    ensures Msb(FromMsb(ds), |ds|) == ds && FromMsb(ds) < Pow2(|ds|)
  {
    if ds != [] {
      MsbBack(ds[..|ds| - 1]);
    }
  }

  lemma FromMsbLast(ds: seq<nat>, d: nat)
    ensures FromMsb(ds + [d]) == 2 * FromMsb(ds) + d
  {
    assert (ds + [d])[..|ds|] == ds;
  }

  /** A word read from memory, the first byte the least significant. */
  function Load(bs: seq<Byte>): nat {
    if bs == [] then 0 else bs[0] + 256 * Load(bs[1..])
  }

  /** All ones in n bytes. */
  function AllOnes(n: nat): nat {
    if n == 0 then 0 else 255 + 256 * AllOnes(n - 1)
  }

  lemma {:induction false} BitwiseBits(op: BitOp, x: nat, y: nat, n: nat, i: nat)
    requires i < n
    ensures Msb(Bitwise(op, x, y), n)[i] == OnBit(op, Msb(x, n)[i], Msb(y, n)[i])
  {
    hide Bitwise, OnBit, IsBits;
    BitwiseStep(op, x / 2, x % 2, y / 2, y % 2);
    var r := Bitwise(op, x, y);
    assert r / 2 == Bitwise(op, x / 2, y / 2) && r % 2 == OnBit(op, x % 2, y % 2);
    if i < n - 1 {
      BitwiseBits(op, x / 2, y / 2, n - 1, i);
    }
  }

  lemma {:induction false} NotBits(x: nat, n: nat, i: nat)
    requires i < n && x < Pow2(n)
    ensures Msb(Pow2(n) - 1 - x, n)[i] == 1 - Msb(x, n)[i]
  {
    if i < n - 1 {
      NotBits(x / 2, n - 1, i);
      assert (Pow2(n) - 1 - x) / 2 == Pow2(n - 1) - 1 - x / 2;
    }
  }

  lemma NotByte(x: Byte, i: nat)
    requires i < 8
    ensures Msb(255 - x, 8)[i] == 1 - Msb(x, 8)[i]
  {
    hide Pow2, Msb;
    Pow2Values();
    NotBits(x, 8, i);
  }

  lemma ByteBound(op: BitOp, x: Byte, y: Byte)
    ensures Bitwise(op, x, y) < 256
  {
    ByteSplit(op, 0, x, 0, y);
  }

  /** All the bits of a string. */
  function StringBits(s: seq<Byte>): (ds: seq<nat>)
    ensures |ds| == 8 * |s| && IsBits(ds)
  {
    if s == [] then [] else StringBits(s[..|s| - 1]) + Msb(s[|s| - 1], 8)
  }

  lemma StringBitsLast(s: seq<Byte>, b: Byte)
    ensures StringBits(s + [b]) == StringBits(s) + Msb(b, 8)
  {
    assert (s + [b])[..|s|] == s;
  }

  lemma Regrouped(a: seq<nat>, b: seq<nat>, c: seq<nat>)
    ensures (a + b) + c == a + (b + c)
  {
  }

  lemma {:induction false} StringBitsAppend(s: seq<Byte>, t: seq<Byte>)
    ensures StringBits(s + t) == StringBits(s) + StringBits(t)
  {
    if t == [] {
      assert s + t == s;
    } else {
      hide StringBits, Msb, IsBits;
      var (init, last) := (t[..|t| - 1], t[|t| - 1]);
      StringBitsAppend(s, init);
      assert s + t == (s + init) + [last];
      assert t == init + [last];
      StringBitsLast(s + init, last);
      StringBitsLast(init, last);
      Regrouped(StringBits(s), StringBits(init), Msb(last, 8));
    }
  }

  /** Appending k bits shifts by k and adds. */
  lemma {:induction false} FromMsbAppend(ds: seq<nat>, es: seq<nat>)
    requires IsBits(es)
    ensures FromMsb(ds + es) == Join(|es|, FromMsb(ds), FromMsb(es))
  {
    if es == [] {
      assert ds + es == ds;
    } else {
      var (init, last) := (es[..|es| - 1], es[|es| - 1]);
      FromMsbAppend(ds, init);
      assert ds + es == (ds + init) + [last];
      FromMsbLast(ds + init, last);
      assert FromMsb(es) / 2 == FromMsb(init) && FromMsb(es) % 2 == last;
    }
  }

  /** The test (x & (1 << j)) != 0 reads the bit it should. */
  lemma {:induction false} AndPower(ds: seq<nat>, j: nat)
    requires IsBits(ds) && j < |ds|
    ensures Bitwise(And, FromMsb(ds), Pow2(j)) != 0 <==> ds[|ds| - 1 - j] == 1
    decreases |ds|
  {
    var (init, last) := (ds[..|ds| - 1], ds[|ds| - 1]);
    var x := FromMsb(init);
    assert FromMsb(ds) == 2 * x + last;
    hide Bitwise;
    if j == 0 {
      BitwiseStep(And, x, last, 0, 1);
      AndZero(x);
    } else {
      BitwiseStep(And, x, last, Pow2(j - 1), 0);
      AndPower(init, j - 1);
    }
  }

  lemma {:induction false} AllZero(ds: seq<nat>)
    requires forall i :: 0 <= i < |ds| ==> ds[i] == 0
    ensures FromMsb(ds) == 0
  {
    if ds != [] {
      AllZero(ds[..|ds| - 1]);
    }
  }

  /** Bit 8q + r of a string is bit r of its byte q. */
  lemma {:induction false} BitOfString(s: seq<Byte>, q: nat, r: nat)
    requires q < |s| && r < 8
    ensures 8 * q + r < |StringBits(s)| && StringBits(s)[8 * q + r] == Msb(s[q], 8)[r]
  {
    hide Msb, IsBits;
    if q < |s| - 1 {
      BitOfString(s[..|s| - 1], q, r);
    }
  }

  lemma {:induction false} ZeroBits(n: nat)
    ensures forall k :: 0 <= k < n ==> Msb(0, n)[k] == 0
  {
    if n > 0 {
      ZeroBits(n - 1);
    }
  }
}
