/**
 The position of the first bit of a given value in a string (redisBitpos): whole words that cannot
 hold it are skipped, and the word that does is scanned bit by bit. `size` is the number of bytes of
 an unsigned long, which the source leaves open.
 */
module Bitpos {
  import opened Common
  import opened Bits
  import opened BitString

  /** pos is the answer for the row of bits: the first place, or the length for 0, or -1 for 1. */
  ghost predicate IsFirst(ds: seq<nat>, bit: nat, pos: int) {
    if exists i :: 0 <= i < |ds| && ds[i] == bit
    then 0 <= pos < |ds| && ds[pos] == bit && forall i :: 0 <= i < pos ==> ds[i] != bit
    else pos == if bit == 1 then -1 else |ds|
  }

  /** The byte none of whose bits is the one looked for. */
  function Skip(bit: nat): Byte {
    if bit == 1 then 0 else 255
  }

  lemma {:induction false} SkippedBits(s: seq<Byte>, bit: nat)
    requires bit < 2 && forall i :: 0 <= i < |s| ==> s[i] == Skip(bit)
    ensures forall i :: 0 <= i < 8 * |s| ==> StringBits(s)[i] == 1 - bit
  {
    if s != [] {
      SkippedBits(s[..|s| - 1], bit);
      SkippedByte(bit);
    }
  }

  lemma SkippedByte(bit: nat)
    requires bit < 2
    ensures forall i :: 0 <= i < 8 ==> Msb(Skip(bit), 8)[i] == 1 - bit
  {
    if bit == 1 {
      assert Msb(0, 8) == [0, 0, 0, 0, 0, 0, 0, 0];
    } else {
      assert Msb(255, 8) == [1, 1, 1, 1, 1, 1, 1, 1];
    }
  }

  /** Conversely a byte with none of the bits looked for is the one to skip. */
  lemma OnlySkipped(b: Byte, bit: nat)
    requires bit < 2 && forall i :: 0 <= i < 8 ==> Msb(b, 8)[i] == 1 - bit
    ensures b == Skip(bit)
  {
    hide Msb, FromMsb;
    assert Pow2(8) == 256;
    FromMsbBack(b, 8);
    FromMsbBack(Skip(bit), 8);
    SkippedByte(bit);
    assert Msb(b, 8) == Msb(Skip(bit), 8);
  }

  /** The test on a whole word: it is to be skipped exactly when all its bytes are. */
  lemma {:induction false} WordSkips(bs: seq<Byte>, bit: nat)
    requires bit < 2
    ensures Load(bs) == (if bit == 1 then 0 else AllOnes(|bs|)) <==> forall i :: 0 <= i < |bs| ==> bs[i] == Skip(bit)
  {
    if bs != [] {
      WordSkips(bs[1..], bit);
      assert (forall i :: 0 <= i < |bs| ==> bs[i] == Skip(bit)) <==>
        bs[0] == Skip(bit) && forall i :: 0 <= i < |bs[1..]| ==> bs[1..][i] == Skip(bit);
    }
  }

  // ---------------------------------------------------------------- the last word

  /** Up to a word of bytes from position i on, padded with zeros on the right. */
  function Padded(s: seq<Byte>, i: nat, n: nat): (t: seq<Byte>)
    requires i <= |s|
    ensures |t| == n
  {
    seq(n, j requires 0 <= j < n => if i + j < |s| then s[i + j] else 0)
  }

  /** word <<= 8; word |= byte */
  lemma ShiftIn(t: seq<Byte>, b: Byte)
    ensures Bitwise(Or, 256 * FromMsb(StringBits(t)), b) == FromMsb(StringBits(t + [b]))
  {
    hide Bitwise, Join, FromMsb, StringBits, Msb;
    var x := FromMsb(StringBits(t));
    StringBitsLast(t, b);
    FromMsbAppend(StringBits(t), Msb(b, 8));
    Pow2Values();
    FromMsbBack(b, 8);
    JoinIs(8, x, 0);
    JoinIs(8, 0, b);
    JoinIs(8, x, b);
    BitwiseSplit(Or, 8, x, 0, 0, b);
    OrZero(x);
    OrZero(b);
  }

  /** The loop that loads the last word, the first byte the most significant. */
  method LoadBigEndian(s: seq<Byte>, i: nat, size: nat) returns (word: nat)
    requires i <= |s|
    ensures word == FromMsb(StringBits(Padded(s, i, size))) && word < Pow2(8 * size)
  {
    hide Bitwise, FromMsb, StringBits, Msb, IsBits, Padded;
    word := 0;
    NoBits(s, i);
    for j := 0 to size
      invariant word == FromMsb(StringBits(Padded(s, i, j)))
    {
      ghost var t := Padded(s, i, j);
      var b: Byte := if i + j < |s| then s[i + j] else 0;
      PaddedStep(s, i, j);
      ShiftIn(t, b);
      MsbBack(StringBits(t));
      FitsShift(word, j, size);
      SmallModulo(256 * word, Pow2(8 * size));
      word := (256 * word) % Pow2(8 * size);
      OrZero(word);
      if i + j < |s| {
        word := Bitwise(Or, word, b);
      }
    }
    MsbBack(StringBits(Padded(s, i, size)));
  }

  lemma NoBits(s: seq<Byte>, i: nat)
    requires i <= |s|
    ensures FromMsb(StringBits(Padded(s, i, 0))) == 0
  {
  }

  lemma PaddedStep(s: seq<Byte>, i: nat, j: nat)
    requires i <= |s|
    ensures Padded(s, i, j + 1) == Padded(s, i, j) + [if i + j < |s| then s[i + j] else 0]
  {
  }

  lemma FitsShift(word: nat, j: nat, size: nat)
    requires j < size && word < Pow2(8 * j)
    ensures 256 * word < Pow2(8 * size)
  {
    hide Pow2;
    Pow2Byte(8 * j);
    Pow2Grows(8 * j + 8, 8 * size);
  }

  lemma SmallModulo(x: nat, m: nat)
    requires x < m
    ensures x % m == x
  {
  }

  // ---------------------------------------------------------------- the answer

  /** The last word holds the bits of the string from byte i on, then zeros. */
  lemma WindowBit(s: seq<Byte>, i: nat, size: nat, k: nat)
    requires i <= |s| && k < 8 * size
    ensures StringBits(Padded(s, i, size))[k] == if 8 * i + k < 8 * |s| then StringBits(s)[8 * i + k] else 0
  {
    hide StringBits, Msb, IsBits;
    var q, r := k / 8, k % 8;
    BitOfString(Padded(s, i, size), q, r);
    if i + q < |s| {
      BitOfString(s, i + q, r);
    } else {
      ZeroBits(8);
    }
  }

  ghost predicate Skipped(s: seq<Byte>, i: nat, bit: nat) {
    i <= |s| && forall j :: 0 <= j < i ==> s[j] == Skip(bit)
  }

  lemma SkipWord(s: seq<Byte>, i: nat, size: nat, bit: nat)
    requires i + size <= |s| && Skipped(s, i, bit) && Skipped(s[i..i + size], size, bit)
    ensures Skipped(s, i + size, bit)
  {
    forall j | i <= j < i + size ensures s[j] == Skip(bit) {
      assert s[j] == s[i..i + size][j - i];
    }
  }

  lemma SkippedPrefix(s: seq<Byte>, i: nat, bit: nat)
    requires bit < 2 && Skipped(s, i, bit)
    ensures forall k :: 0 <= k < 8 * i ==> StringBits(s)[k] == 1 - bit
  {
    hide StringBits;
    SkippedBits(s[..i], bit);
    assert s == s[..i] + s[i..];
    StringBitsAppend(s[..i], s[i..]);
  }

  /** A match in the last word is the answer; beyond the string it can only be the zero of the padding. */
  lemma MatchIsFirst(s: seq<Byte>, i: nat, size: nat, bit: nat, k: nat)
    requires bit < 2 && Skipped(s, i, bit) && k < 8 * size
    requires var w := StringBits(Padded(s, i, size)); w[k] == bit && forall j :: 0 <= j < k ==> w[j] != bit
    ensures IsFirst(StringBits(s), bit, 8 * i + k)
  {
    hide StringBits, Padded;
    var (ds, w) := (StringBits(s), StringBits(Padded(s, i, size)));
    SkippedPrefix(s, i, bit);
    WindowBit(s, i, size, k);
    forall j | 8 * i <= j < 8 * |s| && j < 8 * i + k ensures ds[j] != bit {
      WindowBit(s, i, size, j - 8 * i);
    }
    if 8 * i + k >= 8 * |s| {
      assert forall j :: 0 <= j < |ds| ==> ds[j] != bit;
      if 8 * |s| - 8 * i < k {
        WindowBit(s, i, size, 8 * |s| - 8 * i);
      }
    } else {
      assert ds[8 * i + k] == bit;
    }
  }

  /** No one bit in the last word, and nothing beyond it. */
  lemma NoMatch(s: seq<Byte>, i: nat, size: nat)
    requires Skipped(s, i, 1) && |s| - i < size && forall k :: 0 <= k < 8 * size ==> StringBits(Padded(s, i, size))[k] == 0
    ensures IsFirst(StringBits(s), 1, -1)
  {
    hide StringBits, Padded;
    SkippedPrefix(s, i, 1);
    forall j | 8 * i <= j < 8 * |s| ensures StringBits(s)[j] == 0 {
      WindowBit(s, i, size, j - 8 * i);
    }
  }

  /** Bytes without the bit looked for are the ones to skip. */
  lemma BytesSkipped(t: seq<Byte>, bit: nat)
    requires bit < 2 && forall k :: 0 <= k < 8 * |t| ==> StringBits(t)[k] == 1 - bit
    ensures Skipped(t, |t|, bit)
  {
    hide StringBits, Msb;
    forall j | 0 <= j < |t| ensures t[j] == Skip(bit) {
      forall m | 0 <= m < 8 ensures Msb(t[j], 8)[m] == 1 - bit {
        BitOfString(t, j, m);
      }
      OnlySkipped(t[j], bit);
    }
  }

  /** The word that stopped the skipping holds the bit looked for, so that the scan cannot run off its end. */
  lemma WordHasMatch(s: seq<Byte>, i: nat, size: nat, bit: nat)
    requires bit < 2 && i <= |s|
    requires bit == 1 ==> FromMsb(StringBits(Padded(s, i, size))) != 0
    requires bit == 0 ==> |s| - i < size || !Skipped(s[i..i + size], size, 0)
    ensures exists k :: 0 <= k < 8 * size && StringBits(Padded(s, i, size))[k] == bit
  {
    hide StringBits, FromMsb;
    var t := Padded(s, i, size);
    var w := StringBits(t);
    if bit == 1 {
      if forall k :: 0 <= k < 8 * size ==> w[k] == 0 {
        AllZero(w);
      }
    } else if |s| - i < size {
      WindowBit(s, i, size, 8 * size - 1);
      assert w[8 * size - 1] == bit;
    } else if forall k :: 0 <= k < 8 * size ==> w[k] == 1 {
      WholeWord(s, i, size);
      BytesSkipped(t, 0);
    }
  }

  /** ULONG_MAX, and the word with only its most significant bit set. */
  lemma {:induction false} WordLimits(size: nat)
    requires size > 0
    ensures AllOnes(size) == Pow2(8 * size) - 1 && AllOnes(size) - AllOnes(size) / 2 == Pow2(8 * size - 1)
  {
    Pow2Byte(8 * (size - 1));
    assert Pow2(8 * size) == 2 * Pow2(8 * size - 1);
    if size > 1 {
      WordLimits(size - 1);
    } else {
      assert Pow2(0) == 1;
    }
  }

  /** The last loop: scan the word from its most significant bit. */
  method Scan(word: nat, ghost w: seq<nat>, bit: nat, size: nat) returns (k: nat)
    requires bit < 2 && size > 0 && |w| == 8 * size && IsBits(w) && word == FromMsb(w)
    requires exists k :: 0 <= k < 8 * size && w[k] == bit
    ensures k < 8 * size && w[k] == bit && forall j :: 0 <= j < k ==> w[j] != bit
  {
    hide FromMsb, Bitwise;
    WordLimits(size);
    var one := AllOnes(size);
    one := one / 2;
    one := AllOnes(size) - one;
    k := 0;
    while one != 0
      invariant k <= 8 * size && one == (if k < 8 * size then Pow2(8 * size - 1 - k) else 0)
      invariant forall j :: 0 <= j < k ==> w[j] != bit
      decreases one
    {
      AndPower(w, 8 * size - 1 - k);
      if (if Bitwise(And, word, one) != 0 then 1 else 0) == bit { return; }
      k := k + 1;
      one := one / 2;
    }
    assert false;
  }

  /** redisBitpos, for a string that starts at the given address. */
  method RedisBitpos(s: seq<Byte>, address: nat, bit: nat, size: nat) returns (pos: int)
    requires bit < 2 && size > 0
    ensures IsFirst(StringBits(s), bit, pos)
  {
    hide StringBits, FromMsb, Padded, Load, AllOnes, IsFirst, IsBits;
    var i := 0;
    pos := 0;
    while (address + i) % size != 0 && i < |s|
      invariant Skipped(s, i, bit) && pos == 8 * i
      decreases |s| - i
    {
      if s[i] != Skip(bit) { break; }
      i := i + 1;
      pos := pos + 8;
    }
    var skipval := if bit == 1 then 0 else AllOnes(size);
    while |s| - i >= size
      invariant Skipped(s, i, bit) && pos == 8 * i
    {
      WordSkips(s[i..i + size], bit);
      if Load(s[i..i + size]) != skipval { break; }
      SkipWord(s, i, size, bit);
      i := i + size;
      pos := pos + size * 8;
    }
    assert |s| - i < size || !Skipped(s[i..i + size], size, bit);
    var word := LoadBigEndian(s, i, size);
    ghost var w := StringBits(Padded(s, i, size));
    if bit == 1 && word == 0 {
      MsbBack(w);
      ZeroWord(s, i, size);
      return -1;
    }
    WordHasMatch(s, i, size, bit);
    var k := Scan(word, w, bit, size);
    MatchIsFirst(s, i, size, bit, k);
    pos := pos + k;
  }

  /** A zero word was not stopped at, so that the string ends in it. */
  lemma ZeroWord(s: seq<Byte>, i: nat, size: nat)
    requires Skipped(s, i, 1) && FromMsb(StringBits(Padded(s, i, size))) == 0
    requires |s| - i < size || !Skipped(s[i..i + size], size, 1)
    ensures IsFirst(StringBits(s), 1, -1)
  {
    hide StringBits, FromMsb, IsBits, IsFirst, Msb, Padded;
    var t := Padded(s, i, size);
    ZeroRow(StringBits(t));
    if |s| - i >= size {
      WholeWord(s, i, size);
      BytesSkipped(t, 1);
      assert false;
    }
    NoMatch(s, i, size);
  }

  lemma WholeWord(s: seq<Byte>, i: nat, size: nat)
    requires i + size <= |s|
    ensures s[i..i + size] == Padded(s, i, size)
  {
  }

  lemma ZeroRow(w: seq<nat>)
    requires IsBits(w) && FromMsb(w) == 0
    ensures forall k :: 0 <= k < |w| ==> w[k] == 0
  {
    hide FromMsb, Msb;
    MsbBack(w);
    ZeroBits(|w|);
  }
}
