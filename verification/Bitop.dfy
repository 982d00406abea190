/**
 BITOP: the bitwise combination of strings. As far as all of them have data, four words at a time
 are combined in place; the rest goes byte by byte, with shorter strings padded by zeros. `size` is
 the number of bytes of an unsigned long, which the source leaves open.
 */
module Bitop {
  import opened Common
  import opened Bits
  import opened BitString

  datatype Operation = Combine(op: BitOp) | Not

  /** A key that does not exist counts as an empty string. */
  type Source = Option<seq<Byte>>

  function Length(k: Source): nat {
    if k.Some? then |k.value| else 0
  }

  function ByteAt(k: Source, j: nat): Byte {
    if j < Length(k) then k.value[j] else 0
  }

  /** Bit i of a string, zero beyond its end. */
  function BitAt(k: Source, i: nat): nat {
    if i < 8 * Length(k) then StringBits(k.value)[i] else 0
  }

  /** The combination of bit i of the first n strings. */
  function FoldBit(op: Operation, keys: seq<Source>, i: nat, n: nat): (b: nat)
    requires 0 < n <= |keys|
    ensures b < 2
  {
    if n == 1 then (if op.Not? then 1 - BitAt(keys[0], i) else BitAt(keys[0], i))
    else if op.Not? then FoldBit(op, keys, i, n - 1)
    else OnBit(op.op, FoldBit(op, keys, i, n - 1), BitAt(keys[n - 1], i))
  }

  // ---------------------------------------------------------------- what each operation means for a bit

  /** Which of the first n strings have bit i set. */
  ghost function Setters(keys: seq<Source>, i: nat, n: nat): set<nat> {
    set k | 0 <= k < n && k < |keys| && BitAt(keys[k], i) == 1
  }

  /** AND: every string has the bit. OR: some string has it. XOR: an odd number of them have it. NOT: the
      string does not have it. */
  ghost predicate Means(op: Operation, keys: seq<Source>, i: nat, n: nat, b: nat)
    requires 0 < n <= |keys|
  {
    b < 2 && match op
      case Not => b == 1 <==> BitAt(keys[0], i) == 0
      case Combine(And) => b == 1 <==> forall k :: 0 <= k < n ==> BitAt(keys[k], i) == 1
      case Combine(Or) => b == 1 <==> exists k :: 0 <= k < n && BitAt(keys[k], i) == 1
      case Combine(Xor) => b == 1 <==> |Setters(keys, i, n)| % 2 == 1
  }

  lemma {:induction false} FoldBitMeans(op: Operation, keys: seq<Source>, i: nat, n: nat)
    requires 0 < n <= |keys|
    ensures Means(op, keys, i, n, FoldBit(op, keys, i, n))
  {
    hide BitAt, Setters, OnBit;
    SettersNext(keys, i, n - 1);
    if n == 1 {
      SettersNone(keys, i);
    } else {
      FoldBitMeans(op, keys, i, n - 1);
      if op.Combine? {
        OnBitMeans(op.op, FoldBit(op, keys, i, n - 1), BitAt(keys[n - 1], i), |Setters(keys, i, n - 1)|);
      }
    }
  }

  lemma OnBitMeans(op: BitOp, a: nat, b: nat, m: nat)
    requires a < 2 && b < 2
    ensures match op
      case And => OnBit(op, a, b) == 1 <==> a == 1 && b == 1
      case Or => OnBit(op, a, b) == 1 <==> a == 1 || b == 1
      case Xor => (a == 1 <==> m % 2 == 1) ==> (OnBit(op, a, b) == 1 <==> (m + b) % 2 == 1)
  {
  }

  lemma SettersNone(keys: seq<Source>, i: nat)
    ensures |Setters(keys, i, 0)| == 0
  {
    assert Setters(keys, i, 0) == {};
  }

  lemma SettersNext(keys: seq<Source>, i: nat, n: nat)
    requires n < |keys|
    ensures BitAt(keys[n], i) < 2
    ensures |Setters(keys, i, n + 1)| == |Setters(keys, i, n)| + BitAt(keys[n], i)
  {
    BitIsBit(keys[n], i);
    if BitAt(keys[n], i) == 1 {
      assert Setters(keys, i, n + 1) == Setters(keys, i, n) + {n};
    } else {
      assert Setters(keys, i, n + 1) == Setters(keys, i, n);
    }
  }

  lemma BitIsBit(k: Source, i: nat)
    ensures BitAt(k, i) < 2
  {
  }

  // ---------------------------------------------------------------- bytes

  function ByteOp(op: BitOp, x: Byte, y: Byte): (r: Byte) {
    ByteBound(op, x, y);
    Bitwise(op, x, y)
  }

  /** The combination of byte j of the first n strings. */
  function FoldByte(op: Operation, keys: seq<Source>, j: nat, n: nat): Byte
    requires 0 < n <= |keys|
  {
    if n == 1 then (if op.Not? then 255 - ByteAt(keys[0], j) else ByteAt(keys[0], j))
    else if op.Not? then FoldByte(op, keys, j, n - 1)
    else ByteOp(op.op, FoldByte(op, keys, j, n - 1), ByteAt(keys[n - 1], j))
  }

  lemma BitOfByte(k: Source, j: nat, r: nat)
    requires r < 8
    ensures BitAt(k, 8 * j + r) == Msb(ByteAt(k, j), 8)[r]
  {
    hide StringBits, Msb, IsBits;
    if j < Length(k) {
      BitOfString(k.value, j, r);
    } else {
      ZeroBits(8);
    }
  }

  /** Combining bytes combines their bits. */
  lemma {:induction false} FoldByteBits(op: Operation, keys: seq<Source>, j: nat, n: nat, r: nat)
    requires 0 < n <= |keys| && r < 8
    ensures Msb(FoldByte(op, keys, j, n), 8)[r] == FoldBit(op, keys, 8 * j + r, n)
  {
    hide Msb, BitAt, ByteAt, Bitwise, OnBit, IsBits;
    if n == 1 {
      BitOfByte(keys[0], j, r);
      NotByte(ByteAt(keys[0], j), r);
    } else {
      FoldByteBits(op, keys, j, n - 1, r);
      if op.Combine? {
        BitOfByte(keys[n - 1], j, r);
        BitwiseBits(op.op, FoldByte(op, keys, j, n - 1), ByteAt(keys[n - 1], j), 8, r);
      }
    }
  }

  // ---------------------------------------------------------------- words

  function Zip(op: BitOp, a: seq<Byte>, b: seq<Byte>): (c: seq<Byte>)
    requires |a| == |b|
    ensures |c| == |a|
  {
    if a == [] then [] else [ByteOp(op, a[0], b[0])] + Zip(op, a[1..], b[1..])
  }

  function Complement(a: seq<Byte>): (c: seq<Byte>)
    ensures |c| == |a|
  {
    if a == [] then [] else [255 - a[0]] + Complement(a[1..])
  }

  lemma {:induction false} ZipAt(op: BitOp, a: seq<Byte>, b: seq<Byte>, i: nat)
    requires |a| == |b| && i < |a|
    ensures Zip(op, a, b)[i] == ByteOp(op, a[i], b[i])
  {
    if i > 0 {
      ZipAt(op, a[1..], b[1..], i - 1);
    }
  }

  lemma {:induction false} ComplementAt(a: seq<Byte>, i: nat)
    requires i < |a|
    ensures Complement(a)[i] == 255 - a[i]
  {
    if i > 0 {
      ComplementAt(a[1..], i - 1);
    }
  }

  /** Combining words combines their bytes. */
  lemma {:induction false} LoadZip(op: BitOp, a: seq<Byte>, b: seq<Byte>)
    requires |a| == |b|
    ensures Bitwise(op, Load(a), Load(b)) == Load(Zip(op, a, b))
  {
    if a != [] {
      hide Bitwise;
      LoadZip(op, a[1..], b[1..]);
      ByteSplit(op, Load(a[1..]), a[0], Load(b[1..]), b[0]);
      assert Zip(op, a, b)[1..] == Zip(op, a[1..], b[1..]);
    }
  }

  lemma {:induction false} LoadComplement(a: seq<Byte>)
    ensures Load(a) + Load(Complement(a)) == AllOnes(|a|)
  {
    if a != [] {
      LoadComplement(a[1..]);
      assert Complement(a)[1..] == Complement(a[1..]);
    }
  }

  /** The bytes of a word come back from memory as they were stored. */
  method StoreWord(res: array<Byte>, j: nat, word: nat, size: nat, ghost bs: seq<Byte>)
    requires |bs| == size && j + size <= res.Length && word == Load(bs)
    modifies res
    ensures forall k :: 0 <= k < res.Length ==> res[k] == if j <= k < j + size then bs[k - j] else old(res[k])
  {
    var rest := word;
    for k := 0 to size
      invariant rest == Load(bs[k..])
      invariant forall m :: 0 <= m < res.Length ==> res[m] == if j <= m < j + k then bs[m - j] else old(res[m])
    {
      assert bs[k..][1..] == bs[k + 1..];
      res[j + k] := rest % 256;
      rest := rest / 256;
    }
  }

  /** lres[i] op= lp[i] */
  method CombineWord(op: BitOp, res: array<Byte>, j: nat, src: seq<Byte>, size: nat)
    requires j + size <= res.Length && j + size <= |src|
    modifies res
    ensures forall k :: 0 <= k < res.Length ==>
      res[k] == if j <= k < j + size then ByteOp(op, old(res[k]), src[k]) else old(res[k])
  {
    var a, b := res[j..j + size], src[j..j + size];
    LoadZip(op, a, b);
    ghost var c := Zip(op, a, b);
    forall k | 0 <= k < size ensures c[k] == ByteOp(op, res[j + k], src[j + k]) {
      ZipAt(op, a, b, k);
    }
    StoreWord(res, j, Bitwise(op, Load(a), Load(b)), size, c);
  }

  /** lres[i] = ~lres[i] */
  method ComplementWord(res: array<Byte>, j: nat, size: nat)
    requires j + size <= res.Length
    modifies res
    ensures forall k :: 0 <= k < res.Length ==> res[k] == if j <= k < j + size then 255 - old(res[k]) else old(res[k])
  {
    var a := res[j..j + size];
    LoadComplement(a);
    ghost var c := Complement(a);
    forall k | 0 <= k < size ensures c[k] == 255 - res[j + k] {
      ComplementAt(a, k);
    }
    StoreWord(res, j, AllOnes(size) - Load(a), size, c);
  }

  // ---------------------------------------------------------------- bitopCommand

  ghost predicate IsMin(keys: seq<Source>, n: nat, m: nat)
    requires n <= |keys|
  {
    (forall i :: 0 <= i < n ==> m <= Length(keys[i])) && (n == 0 ==> m == 0)
  }

  ghost predicate IsMax(keys: seq<Source>, n: nat, m: nat)
    requires n <= |keys|
  {
    (forall i :: 0 <= i < n ==> Length(keys[i]) <= m) && (m == 0 || exists i :: 0 <= i < n && Length(keys[i]) == m)
  }

  /** The loop that looks the keys up: a missing one makes the common length zero for good. */
  method Lengths(keys: seq<Source>) returns (minlen: nat, maxlen: nat)
    ensures IsMin(keys, |keys|, minlen) && IsMax(keys, |keys|, maxlen)
  {
    minlen, maxlen := 0, 0;
    for j := 0 to |keys|
      invariant IsMin(keys, j, minlen) && IsMax(keys, j, maxlen)
    {
      if keys[j] == None {
        minlen := 0;
        continue;
      }
      var len := |keys[j].value|;
      if len > maxlen { maxlen := len; }
      if j == 0 || len < minlen { minlen := len; }
    }
  }

  /** One round of the fast path: four words of all the strings. */
  method CombineRound(op: Operation, keys: seq<Source>, res: array<Byte>, j: nat, size: nat)
    requires size > 0 && |keys| > 0 && j + 4 * size <= res.Length && (op.Not? ==> |keys| == 1)
    requires forall i :: 0 <= i < |keys| ==> j + 4 * size <= Length(keys[i])
    requires forall k :: j <= k < j + 4 * size ==> res[k] == ByteAt(keys[0], k)
    modifies res
    ensures forall k :: 0 <= k < res.Length ==>
      res[k] == if j <= k < j + 4 * size then FoldByte(op, keys, k, |keys|) else old(res[k])
  {
    hide ByteOp, ByteAt;
    if op.Not? {
      ComplementWord(res, j, size);
      ComplementWord(res, j + size, size);
      ComplementWord(res, j + 2 * size, size);
      ComplementWord(res, j + 3 * size, size);
      return;
    }
    for i := 1 to |keys|
      invariant forall k :: 0 <= k < res.Length ==>
        res[k] == if j <= k < j + 4 * size then FoldByte(op, keys, k, i) else old(res[k])
    {
      var src := keys[i].value;
      ghost var before := res[..];
      CombineWord(op.op, res, j, src, size);
      CombineWord(op.op, res, j + size, src, size);
      CombineWord(op.op, res, j + 2 * size, src, size);
      CombineWord(op.op, res, j + 3 * size, src, size);
      forall k | j <= k < j + 4 * size ensures res[k] == FoldByte(op, keys, k, i + 1) {
        assert res[k] == ByteOp(op.op, before[k], src[k]);
        InRange(keys[i], k);
      }
    }
  }

  lemma InRange(k: Source, j: nat)
    requires j < Length(k)
    ensures k.Some? && ByteAt(k, j) == k.value[j]
  {
  }

  /** One byte of the plain algorithm. */
  method CombineByte(op: Operation, keys: seq<Source>, j: nat) returns (output: Byte)
    requires |keys| > 0 && (op.Not? ==> |keys| == 1)
    ensures output == FoldByte(op, keys, j, |keys|)
  {
    hide ByteOp;
    output := if Length(keys[0]) <= j then 0 else keys[0].value[j];
    if op.Not? { output := 255 - output; }
    for i := 1 to |keys|
      invariant output == FoldByte(op, keys, j, i)
    {
      var byte := if Length(keys[i]) <= j then 0 else keys[i].value[j];
      output := ByteOp(op.op, output, byte);
    }
  }

  /** The computation of bitopCommand. */
  method BitopCommand(op: Operation, keys: seq<Source>, size: nat) returns (r: seq<Byte>)
    requires size > 0 && |keys| > 0 && (op.Not? ==> |keys| == 1)
    ensures IsMax(keys, |keys|, |r|)
    ensures forall j :: 0 <= j < |r| ==> r[j] == FoldByte(op, keys, j, |keys|)
    ensures forall i :: 0 <= i < 8 * |r| ==> Means(op, keys, i, |keys|, StringBits(r)[i])
  {
    hide FoldByte, ByteAt, IsMax, Means, StringBits;
    var minlen, maxlen := Lengths(keys);
    var res := new Byte[maxlen](_ => 0);
    MinBelowMax(keys, minlen, maxlen);
    var j := 0;
    if minlen >= size * 4 && |keys| <= 16 {
      ghost var common := minlen;
      for k := 0 to minlen
        invariant forall m :: 0 <= m < k ==> res[m] == ByteAt(keys[0], m)
      {
        InRange(keys[0], k);
        res[k] := keys[0].value[k];
      }
      while minlen >= size * 4
        invariant 0 <= minlen && j + minlen == common <= maxlen
        invariant forall k :: 0 <= k < j ==> res[k] == FoldByte(op, keys, k, |keys|)
        invariant forall k :: j <= k < common ==> res[k] == ByteAt(keys[0], k)
      {
        CombineRound(op, keys, res, j, size);
        j := j + size * 4;
        minlen := minlen - size * 4;
      }
    }
    while j < maxlen
      invariant j <= maxlen
      invariant forall k :: 0 <= k < j ==> res[k] == FoldByte(op, keys, k, |keys|)
    {
      var output := CombineByte(op, keys, j);
      res[j] := output;
      j := j + 1;
    }
    r := res[..];
    forall i | 0 <= i < 8 * |r| ensures Means(op, keys, i, |keys|, StringBits(r)[i]) {
      ResultBits(op, keys, r, i);
      FoldBitMeans(op, keys, i, |keys|);
    }
  }

  lemma MinBelowMax(keys: seq<Source>, minlen: nat, maxlen: nat)
    requires |keys| > 0 && IsMin(keys, |keys|, minlen) && IsMax(keys, |keys|, maxlen)
    ensures minlen <= maxlen
  {
    assert minlen <= Length(keys[0]) <= maxlen;
  }

  /** Every bit of the result combines the bits at its place, shorter strings being padded with zeros. */
  lemma ResultBits(op: Operation, keys: seq<Source>, r: seq<Byte>, i: nat)
    requires |keys| > 0 && i < 8 * |r| && forall j :: 0 <= j < |r| ==> r[j] == FoldByte(op, keys, j, |keys|)
    ensures StringBits(r)[i] == FoldBit(op, keys, i, |keys|)
  {
    hide StringBits, Msb, FoldByte, FoldBit, IsBits;
    var q, b := i / 8, i % 8;
    BitOfString(r, q, b);
    FoldByteBits(op, keys, q, |keys|, b);
  }
}
