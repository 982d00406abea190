/**
 The integer set (intset.c): a sorted array of integers of two, four or eight bytes each, in one
 block of bytes. Adding a number that needs more bytes rewrites the block in place.
 */
module Intset {
  import opened Common

  // ---------------------------------------------------------------- integers as bytes

  /** The n bytes of v in two's complement, the least significant first. */
  function Encode(v: int, n: nat): (bs: seq<Byte>)
    ensures |bs| == n
    decreases n
  {
    if n == 0 then [] else [v % 256] + Encode(v / 256, n - 1)
  }

  /** The number stored in some bytes. */
  function Decode(bs: seq<Byte>): int
    requires bs != []
  {
    if |bs| == 1 then (if bs[0] >= 128 then bs[0] - 256 else bs[0])
    else bs[0] + 256 * Decode(bs[1..])
  }

  /** Half the number of values of n bytes. */
  function Half(n: nat): nat {
    if n <= 1 then 128 else 256 * Half(n - 1)
  }

  predicate InRange(v: int, n: nat) {
    0 - Half(n) <= v < Half(n)
  }

  function Pow256(i: nat): (p: nat)
    ensures p > 0
  {
    if i == 0 then 1 else 256 * Pow256(i - 1)
  }

  /** Byte i is worth 256 to the i: the encoding is little endian whatever the machine. */
  lemma {:induction false} LittleEndian(v: int, n: nat, i: nat)
    requires i < n
    ensures Encode(v, n)[i] == v / Pow256(i) % 256
    decreases n
  {
    if i > 0 {
      LittleEndian(v / 256, n - 1, i - 1);
      DivTwice(v, 256, Pow256(i - 1));
    }
  }

  lemma DivTwice(v: int, a: nat, b: nat)
    requires a > 0 && b > 0
    ensures a * b > 0 && v / a / b == v / (a * b)
  {
    var (q, r) := (v / a / b, v / a % b);
    var s := v % a;
    assert v == a * (b * q + r) + s;
    assert a * r + s < a * b by {
      assert a * r <= a * (b - 1);
    }
    assert v == (a * b) * q + (a * r + s);
    DivUnique(v, a * b, q, a * r + s);
  }

  lemma DivUnique(v: int, d: nat, q: int, r: int)
    requires d > 0 && v == d * q + r && 0 <= r < d
    ensures v / d == q
  {
    var k := v / d - q;
    assert d * k == r - v % d;
    Multiple(d, k);
  }

  lemma Multiple(d: nat, k: int)
    ensures (k > 0 ==> d * k >= d) && (k < 0 ==> d * k <= 0 - d)
  {
  }

  lemma {:induction false} DecodeEncode(v: int, n: nat)
    requires n > 0 && InRange(v, n)
    ensures Decode(Encode(v, n)) == v
    decreases n
  {
    if n > 1 {
      DecodeEncode(v / 256, n - 1);
      assert Encode(v, n)[1..] == Encode(v / 256, n - 1);
    }
  }

  lemma {:induction false} DecodeRange(bs: seq<Byte>)
    requires bs != []
    ensures InRange(Decode(bs), |bs|)
  {
    if |bs| > 1 {
      DecodeRange(bs[1..]);
    }
  }

  lemma {:induction false} HalfGrows(a: nat, b: nat)
    requires a <= b
    ensures Half(a) <= Half(b)
  {
    if a < b {
      HalfGrows(a, b - 1);
    }
  }

  lemma Halves()
    ensures Half(2) == 0x8000 && Half(4) == 0x8000_0000 && Half(8) == 0x8000_0000_0000_0000
  {
  }

  /** _intsetValueEncoding */
  function ValueEncoding(v: int): nat {
    if v < -0x8000_0000 || v > 0x7fff_ffff then 8
    else if v < -0x8000 || v > 0x7fff then 4
    else 2
  }

  predicate IsEncoding(e: nat) {
    e == 2 || e == 4 || e == 8
  }

  /** The least of the three encodings a number fits into. */
  lemma ValueEncodingIsLeast(v: int, e: nat)
    requires InRange(v, 8) && IsEncoding(e)
    ensures IsEncoding(ValueEncoding(v)) && (InRange(v, e) <==> ValueEncoding(v) <= e)
  {
    Halves();
  }

  // ---------------------------------------------------------------- cells

  /** The numbers in a block of n cells of e bytes each. */
  function Cells(block: seq<Byte>, e: nat, n: nat): (vs: seq<int>)
    requires e > 0 && |block| == n * e
    ensures |vs| == n
    decreases n
  {
    if n == 0 then []
    else
      Times(n - 1, e);
      [Decode(block[..e])] + Cells(block[e..], e, n - 1)
  }

  lemma Times(n: nat, e: nat)
    ensures (n + 1) * e == n * e + e
  {
  }

  lemma TimesGrows(a: nat, b: nat, e: nat)
    requires a <= b
    ensures a * e <= b * e
  {
    var d := b - a;
    assert b * e == a * e + d * e;
  }

  lemma TimesLess(a: nat, b: nat, e: nat)
    requires a < b
    ensures a * e + e <= b * e
  {
    TimesGrows(a + 1, b, e);
    Times(a, e);
  }

  lemma TimesAdd(a: nat, b: nat, e: nat)
    ensures (a + b) * e == a * e + b * e
  {
  }

  lemma {:induction false} CellsAppend(a: seq<Byte>, b: seq<Byte>, e: nat, m: nat, n: nat)
    requires e > 0 && |a| == m * e && |b| == n * e
    ensures |a + b| == (m + n) * e && Cells(a + b, e, m + n) == Cells(a, e, m) + Cells(b, e, n)
    decreases m
  {
    TimesAdd(m, n, e);
    if m == 0 {
      assert a + b == b;
    } else {
      Times(m - 1, e);
      TimesAdd(m - 1, n, e);
      CellsAppend(a[e..], b, e, m - 1, n);
      assert (a + b)[..e] == a[..e] && (a + b)[e..] == a[e..] + b;
    }
  }

  /** One cell in the middle of a block. */
  lemma CellAt(block: seq<Byte>, e: nat, n: nat, i: nat)
    requires e > 0 && |block| == n * e && i < n
    ensures i * e + e <= |block| && Cells(block, e, n)[i] == Decode(block[i * e..i * e + e])
    ensures InRange(Cells(block, e, n)[i], e)
  {
    hide Cells, Decode;
    TimesLess(i, n, e);
    TimesAdd(i, n - i, e);
    var (a, b) := (block[..i * e], block[i * e..]);
    assert block == a + b;
    CellsAppend(a, b, e, i, n - i);
    FirstCell(b, e, n - i);
    assert b[..e] == block[i * e..i * e + e];
    DecodeRange(b[..e]);
  }

  lemma FirstCell(block: seq<Byte>, e: nat, n: nat)
    requires e > 0 && n > 0 && |block| == n * e
    ensures e <= |block| && Cells(block, e, n)[0] == Decode(block[..e])
  {
    Times(n - 1, e);
  }

  lemma OneCell(v: int, e: nat)
    requires e > 0 && InRange(v, e)
    ensures 1 * e == e && Cells(Encode(v, e), e, 1) == [v]
  {
    hide Encode, Decode;
    DecodeEncode(v, e);
    assert Encode(v, e)[..e] == Encode(v, e);
    NoCells(Encode(v, e)[e..], e);
  }

  lemma NoCells(block: seq<Byte>, e: nat)
    requires e > 0 && block == []
    ensures 0 * e == 0 && Cells(block, e, 0) == []
  {
  }

  // ---------------------------------------------------------------- writing cells

  /** The block with the bytes of a cell replaced. */
  function Store(block: seq<Byte>, e: nat, i: nat, v: int): (b: seq<Byte>)
    requires i * e + e <= |block|
    ensures |b| == |block|
  {
    block[..i * e] + Encode(v, e) + block[i * e + e..]
  }

  lemma ThreeParts(a: seq<Byte>, m: seq<Byte>, b: seq<Byte>, e: nat, i: nat, k: nat)
    requires e > 0 && |a| == i * e && |m| == 1 * e && |b| == k * e
    ensures |a + m + b| == (i + 1 + k) * e
    ensures Cells(a + m + b, e, i + 1 + k) == Cells(a, e, i) + Cells(m, e, 1) + Cells(b, e, k)
  {
    hide Cells;
    CellsAppend(a, m, e, i, 1);
    CellsAppend(a + m, b, e, i + 1, k);
  }

  /** memmove of whole cells. */
  function Moved(block: seq<Byte>, src: nat, dst: nat, count: nat): (b: seq<Byte>)
    requires src + count <= |block| && dst + count <= |block|
    ensures |b| == |block|
  {
    block[..dst] + block[src..src + count] + block[dst + count..]
  }

  /** A block that holds exactly these numbers. */
  ghost predicate Holds(b: seq<Byte>, e: nat, vs: seq<int>) {
    e > 0 && |b| == |vs| * e && Cells(b, e, |vs|) == vs
  }

  function Offset(i: nat, e: nat): nat {
    i * e
  }

  lemma OffsetAdd(i: nat, k: nat, e: nat)
    ensures Offset(i + k, e) == Offset(i, e) + Offset(k, e)
  {
  }

  lemma SplitCells(b: seq<Byte>, e: nat, vs: seq<int>, i: nat)
    requires Holds(b, e, vs) && i <= |vs|
    ensures Offset(i, e) <= |b|
    ensures Holds(b[..Offset(i, e)], e, vs[..i]) && Holds(b[Offset(i, e)..], e, vs[i..])
  {
    hide Cells;
    TimesAdd(i, |vs| - i, e);
    var x := Offset(i, e);
    assert b == b[..x] + b[x..];
    CellsAppend(b[..x], b[x..], e, i, |vs| - i);
  }

  lemma JoinCells(a: seq<Byte>, b: seq<Byte>, e: nat, us: seq<int>, vs: seq<int>)
    requires Holds(a, e, us) && Holds(b, e, vs)
    ensures Holds(a + b, e, us + vs)
  {
    hide Cells;
    CellsAppend(a, b, e, |us|, |vs|);
  }

  /** intsetMoveTail moves numbers: count of them are found again at their new place, whatever overlaps,
      and all the others stay where they were. */
  lemma MovedCells(block: seq<Byte>, e: nat, vs: seq<int>, from: nat, to: nat, count: nat)
    requires Holds(block, e, vs) && from + count <= |vs| && to + count <= |vs|
    ensures Offset(from, e) + Offset(count, e) <= |block| && Offset(to, e) + Offset(count, e) <= |block|
    ensures exists ws ::
      && Holds(Moved(block, Offset(from, e), Offset(to, e), Offset(count, e)), e, ws) && |ws| == |vs|
      && forall i :: 0 <= i < |ws| ==> ws[i] == if to <= i < to + count then vs[from + (i - to)] else vs[i]
  {
    hide Holds, Offset;
    var (src, dst, bytes) := (Offset(from, e), Offset(to, e), Offset(count, e));
    OffsetAdd(from, count, e);
    OffsetAdd(to, count, e);
    SplitCells(block, e, vs, from + count);
    SplitCells(block, e, vs, to + count);
    SplitCells(block, e, vs, to);
    SplitCells(block, e, vs, from);
    SplitCells(block[src..], e, vs[from..], count);
    var (a, m, b) := (block[..dst], block[src..][..bytes], block[dst + bytes..]);
    JoinCells(a, m, e, vs[..to], vs[from..][..count]);
    JoinCells(a + m, b, e, vs[..to] + vs[from..][..count], vs[to + count..]);
    assert Moved(block, src, dst, bytes) == a + m + b;
    var ws := vs[..to] + vs[from..][..count] + vs[to + count..];
    assert Holds(Moved(block, src, dst, bytes), e, ws);
  }

  // ---------------------------------------------------------------- sorted sequences

  ghost predicate Sorted(vs: seq<int>) {
    forall i, j :: 0 <= i < j < |vs| ==> vs[i] < vs[j]
  }

  ghost function SetOf(vs: seq<int>): set<int> {
    set v | v in vs
  }

  /** pos splits the numbers below v from those above. */
  ghost predicate Splits(vs: seq<int>, v: int, pos: nat) {
    pos <= |vs| && (forall i :: 0 <= i < pos ==> vs[i] < v) && (forall i :: pos <= i < |vs| ==> v < vs[i])
  }

  lemma Inserted(vs: seq<int>, v: int, pos: nat)
    requires Sorted(vs) && Splits(vs, v, pos)
    ensures Sorted(vs[..pos] + [v] + vs[pos..]) && SetOf(vs[..pos] + [v] + vs[pos..]) == SetOf(vs) + {v} && v !in vs
  {
    var ws := vs[..pos] + [v] + vs[pos..];
    assert forall i :: 0 <= i < |ws| ==> ws[i] == if i < pos then vs[i] else if i == pos then v else vs[i - 1];
    forall x | x in vs ensures x in ws {
      var i :| 0 <= i < |vs| && vs[i] == x;
      assert ws[if i < pos then i else i + 1] == x;
    }
    assert ws[pos] == v;
  }

  lemma Removed(vs: seq<int>, pos: nat)
    requires Sorted(vs) && pos < |vs|
    ensures Sorted(vs[..pos] + vs[pos + 1..]) && SetOf(vs[..pos] + vs[pos + 1..]) == SetOf(vs) - {vs[pos]}
  {
    var ws := vs[..pos] + vs[pos + 1..];
    assert forall i :: 0 <= i < |ws| ==> ws[i] == if i < pos then vs[i] else vs[i + 1];
    forall x | x in vs && x != vs[pos] ensures x in ws {
      var i :| 0 <= i < |vs| && vs[i] == x;
      assert ws[if i < pos then i else i - 1] == x;
    }
  }

  // ---------------------------------------------------------------- the set

  class IntegerSet {
    var encoding: nat
    var length: nat
    var contents: seq<Byte>

    ghost predicate Shape()
      reads this
    {
      IsEncoding(encoding) && |contents| == length * encoding
    }

    ghost function Values(): (vs: seq<int>)
      requires Shape()
      reads this
    {
      Cells(contents, encoding, length)
    }

    ghost predicate Valid()
      reads this
    {
      Shape() && Sorted(Values())
    }

    ghost function Elements(): set<int>
      requires Shape()
      reads this
    {
      SetOf(Values())
    }

    /** intsetNew */
    constructor ()
      ensures Valid() && Elements() == {} && encoding == 2
    {
      encoding, length, contents := 2, 0, [];
    }

    /** _intsetGet */
    method Get(pos: nat) returns (v: int)
      requires Shape() && pos < length
      ensures v == Values()[pos]
    {
      CellAt(contents, encoding, length, pos);
      v := Decode(contents[pos * encoding..pos * encoding + encoding]);
    }

    /** intsetSearch: where the value is, or where it belongs. */
    method Search(value: int) returns (found: bool, pos: nat)
      requires Valid()
      ensures found <==> value in Values()
      ensures found ==> pos < length && Values()[pos] == value
      ensures !found ==> Splits(Values(), value, pos)
    {
      hide Cells;
      if length == 0 { return false, 0; }
      var last := Get(length - 1);
      if value > last { return false, length; }
      var first := Get(0);
      if value < first { return false, 0; }
      var min, max, mid, cur := 0, length - 1, -1, -1;
      while max >= min
        invariant 0 <= min <= max + 1 <= length
        invariant forall i :: 0 <= i < min ==> Values()[i] < value
        invariant forall i :: max < i < length ==> value < Values()[i]
        invariant mid >= 0 ==> mid < length && cur == Values()[mid] && cur != value
        invariant mid < 0 ==> min <= max
      {
        mid := (min + max) / 2;
        cur := Get(mid);
        if value > cur {
          min := mid + 1;
        } else if value < cur {
          max := mid - 1;
        } else {
          return true, mid;
        }
      }
      return false, min;
    }

    /** _intsetSet on a block that may be larger than the set. */
    method Set(pos: nat, value: int)
      requires pos * encoding + encoding <= |contents|
      modifies this`contents
      ensures contents == Store(old(contents), encoding, pos, value)
    {
      contents := contents[..pos * encoding] + Encode(value, encoding) + contents[pos * encoding + encoding..];
    }

    /** intsetResize: a shorter block loses its end, a longer one gets bytes of no meaning. */
    method Resize(len: nat)
      modifies this`contents
      ensures |contents| == len * encoding
      ensures contents <= old(contents) || old(contents) <= contents
    {
      var size := len * encoding;
      if size <= |contents| {
        contents := contents[..size];
      } else {
        contents := contents + seq(size - |contents|, _ => 0);
      }
    }

    /** intsetMoveTail */
    method MoveTail(from: nat, to: nat)
      requires from <= length && from * encoding + (length - from) * encoding <= |contents|
      requires to * encoding + (length - from) * encoding <= |contents|
      modifies this`contents
      ensures contents == Moved(old(contents), from * encoding, to * encoding, (length - from) * encoding)
    {
      var src, dst, bytes := from * encoding, to * encoding, (length - from) * encoding;
      contents := contents[..dst] + contents[src..src + bytes] + contents[dst + bytes..];
    }

    /** The end of intsetAdd: make room at pos and put the value there. */
    method InsertAt(pos: nat, value: int)
      requires Shape() && pos <= length && InRange(value, encoding)
      modifies this
      ensures Shape() && encoding == old(encoding) && length == old(length) + 1
      ensures Values() == old(Values())[..pos] + [value] + old(Values())[pos..]
    {
      hide Cells, Encode, InRange;
      ghost var block := contents;
      var e := encoding;
      TimesGrows(pos, length, e);
      TimesAdd(pos, length - pos, e);
      Times(length, e);
      Times(pos, e);
      Resize(length + 1);
      ghost var pad := contents[length * e..];
      assert contents == block + pad;
      Gap(block, pad, pos * e, Encode(value, e));
      if pos < length {
        MoveTail(pos, pos + 1);
      }
      Set(pos, value);
      InsertedCells(block, e, length, pos, value);
      length := length + 1;
    }

    /**
     The loop of intsetUpgradeAndAdd: from the last number to the first, each is read in the old
     encoding and written in the new one. No byte is overwritten before it was read.
     */
    method Widen(curenc: nat, prepend: nat, ghost block: seq<Byte>)
      requires IsEncoding(curenc) && IsEncoding(encoding) && curenc < encoding && prepend <= 1
      requires |block| == length * curenc && |contents| == (length + 1) * encoding && block <= contents
      modifies this`contents
      ensures Widened(contents, block, curenc, encoding, prepend, length, 0)
    {
      hide Widened;
      WidenedStart(contents, block, curenc, encoding, prepend, length);
      var j := length;
      while j > 0
        invariant 0 <= j <= length && Widened(contents, block, curenc, encoding, prepend, length, j)
      {
        j := j - 1;
        WidenedCell(contents, block, curenc, encoding, prepend, length, j);
        Set(j + prepend, Decode(contents[j * curenc..j * curenc + curenc]));
      }
    }

    /** intsetUpgradeAndAdd: a number that needs more bytes lies outside the range of all the others. */
    method UpgradeAndAdd(value: int)
      requires Valid() && InRange(value, 8) && ValueEncoding(value) > encoding
      modifies this
      ensures Valid() && encoding == ValueEncoding(value) && length == old(length) + 1
      ensures Values() == if value < 0 then [value] + old(Values()) else old(Values()) + [value]
      ensures Elements() == old(Elements()) + {value} && value !in old(Elements())
    {
      hide Cells, Encode, InRange, Half, Widened, Sorted, ValueEncoding;
      ghost var (block, vs) := (contents, Values());
      var curenc, n := encoding, length;
      var prepend := if value < 0 then 1 else 0;
      ValueEncodingIsLeast(value, curenc);
      ValueEncodingIsLeast(value, ValueEncoding(value));
      OutsideRange(block, curenc, n, value);
      encoding := ValueEncoding(value);
      TimesGrows(n, n + 1, encoding);
      TimesWider(n, curenc, encoding);
      Resize(n + 1);
      Widen(curenc, prepend, block);
      WidenedDone(contents, block, curenc, encoding, prepend, n, value);
      if prepend == 1 {
        Set(0, value);
      } else {
        Set(length, value);
      }
      length := length + 1;
      Inserted(vs, value, if value < 0 then 0 else n);
      assert vs[..0] + [value] + vs[0..] == [value] + vs && vs[..n] + [value] + vs[n..] == vs + [value];
    }

    /** intsetAdd: the set gains the value, and its encoding never becomes narrower. */
    method Add(value: int) returns (success: bool)
      requires Valid() && InRange(value, 8)
      modifies this
      ensures Valid() && Elements() == old(Elements()) + {value}
      ensures success <==> value !in old(Elements())
      ensures encoding == if ValueEncoding(value) > old(encoding) then ValueEncoding(value) else old(encoding)
    {
      hide Cells, InRange, Sorted, ValueEncoding;
      ghost var vs := Values();
      if ValueEncoding(value) > encoding {
        UpgradeAndAdd(value);
        return true;
      }
      var found, pos := Search(value);
      if found { return false; }
      ValueEncodingIsLeast(value, encoding);
      Inserted(vs, value, pos);
      InsertAt(pos, value);
      return true;
    }

    /** intsetRemove */
    method Remove(value: int) returns (success: bool)
      requires Valid() && InRange(value, 8)
      modifies this
      ensures Valid() && Elements() == old(Elements()) - {value} && encoding == old(encoding)
      ensures success <==> value in old(Elements())
    {
      hide Cells, InRange, Sorted, ValueEncoding;
      ghost var vs := Values();
      var found, pos := false, 0;
      if ValueEncoding(value) <= encoding {
        found, pos := Search(value);
      } else {
        NotThere(value);
      }
      if !found { return false; }
      Removed(vs, pos);
      RemoveAt(pos);
      return true;
    }

    /** The body of intsetRemove: close the gap and shorten the block. */
    method RemoveAt(pos: nat)
      requires Shape() && pos < length
      modifies this
      ensures Shape() && encoding == old(encoding) && length == old(length) - 1
      ensures Values() == old(Values())[..pos] + old(Values())[pos + 1..]
    {
      hide Cells;
      ghost var block := contents;
      var len, e := length, encoding;
      RemoveSpace(pos, len, e);
      Closed(block, pos * e, e);
      if pos < len - 1 {
        MoveTail(pos + 1, pos);
      }
      Resize(len - 1);
      assert contents == block[..pos * e] + block[pos * e + e..];
      RemovedCells(block, e, len, pos);
      length := len - 1;
    }

    /** intsetFind */
    method Find(value: int) returns (found: bool)
      requires Valid() && InRange(value, 8)
      ensures found <==> value in Elements()
    {
      hide Cells, InRange, Sorted, ValueEncoding;
      if ValueEncoding(value) <= encoding {
        var pos;
        found, pos := Search(value);
      } else {
        NotThere(value);
        found := false;
      }
    }

    /** A number too wide for the encoding is not in the set. */
    lemma NotThere(value: int)
      requires Shape() && InRange(value, 8) && ValueEncoding(value) > encoding
      ensures value !in Values()
    {
      hide Cells, InRange, ValueEncoding;
      ValueEncodingIsLeast(value, encoding);
      forall i | 0 <= i < length ensures Values()[i] != value {
        CellAt(contents, encoding, length, i);
      }
    }
  }

  /** The numbers from j on are in the new encoding, those before it still untouched in the old one. */
  ghost predicate Widened(c: seq<Byte>, block: seq<Byte>, curenc: nat, e: nat, prepend: nat, n: nat, j: nat) {
    && 0 < curenc < e && j <= n && |block| == n * curenc && |c| == (n + 1) * e
    && j * curenc <= |block| && j * curenc <= |c| && c[..j * curenc] == block[..j * curenc]
    && (j + prepend) * e <= (n + prepend) * e <= |c| && (n + prepend) * e - (j + prepend) * e == (n - j) * e
    && Cells(c[(j + prepend) * e..(n + prepend) * e], e, n - j) == Cells(block, curenc, n)[j..]
  }

  lemma WidenedStart(c: seq<Byte>, block: seq<Byte>, curenc: nat, e: nat, prepend: nat, n: nat)
    requires 0 < curenc < e && prepend <= 1 && |block| == n * curenc && |c| == (n + 1) * e && block <= c
    ensures Widened(c, block, curenc, e, prepend, n, n)
  {
    hide Cells;
    TimesGrows(n + prepend, n + 1, e);
    NoCells([], e);
    assert c[(n + prepend) * e..(n + prepend) * e] == [];
    assert Cells(block, curenc, n)[n..] == [];
  }

  lemma WidenedCell(c: seq<Byte>, block: seq<Byte>, curenc: nat, e: nat, prepend: nat, n: nat, j: nat)
    requires j < n && prepend <= 1 && Widened(c, block, curenc, e, prepend, n, j + 1)
    ensures j * curenc + curenc <= |c| && (j + prepend) * e + e <= |c|
    ensures Widened(Store(c, e, j + prepend, Decode(c[j * curenc..j * curenc + curenc])), block, curenc, e, prepend, n, j)
  {
    hide Cells, Decode, Encode, InRange;
    WidenSpace(j, prepend, n, curenc, e);
    var (x, y, z) := (j * curenc, (j + prepend) * e, (n + prepend) * e);
    CellAt(block, curenc, n, j);
    SameCell(c, block, x, curenc);
    var v := Decode(c[x..x + curenc]);
    HalfGrows(curenc, e);
    WiderRange(v, curenc, e);
    Prepended(c, x, y, z, Encode(v, e));
    OneCell(v, e);
    CellsAppend(Encode(v, e), c[y + e..z], e, 1, n - (j + 1));
  }

  /** Moving the end of a block by the width of a cell and writing the cell. */
  lemma Gap(block: seq<Byte>, pad: seq<Byte>, x: nat, w: seq<Byte>)
    requires x <= |block| && |pad| == |w|
    ensures var (c, n, e) := (block + pad, |block|, |w|);
      && (c[..x + e] + c[x..n] + c[n + e..])[..x] + w + (c[..x + e] + c[x..n] + c[n + e..])[x + e..] == block[..x] + w + block[x..]
      && (x == n ==> c[..x] + w + c[x + e..] == block[..x] + w + block[x..])
  {
    var (c, n, e) := (block + pad, |block|, |w|);
    var d := c[..x + e] + c[x..n] + c[n + e..];
    assert d[..x] == block[..x];
    assert d[x + e..] == block[x..];
  }

  /** Writing a cell at y changes nothing before it and puts it in front of what follows. */
  lemma Prepended(c: seq<Byte>, x: nat, y: nat, z: nat, w: seq<Byte>)
    requires x <= y && y + |w| <= z <= |c|
    ensures var d := c[..y] + w + c[y + |w|..]; d[..x] == c[..x] && d[y..z] == w + c[y + |w|..z]
  {
  }

  lemma InsertedCells(block: seq<Byte>, e: nat, n: nat, pos: nat, v: int)
    requires e > 0 && |block| == n * e && pos <= n && InRange(v, e)
    ensures pos * e <= |block| && |block| + e == (n + 1) * e
    ensures Cells(block[..pos * e] + Encode(v, e) + block[pos * e..], e, n + 1)
         == Cells(block, e, n)[..pos] + [v] + Cells(block, e, n)[pos..]
  {
    hide Cells, Encode, InRange;
    TimesGrows(pos, n, e);
    TimesAdd(pos, n - pos, e);
    Times(n, e);
    var (a, b) := (block[..pos * e], block[pos * e..]);
    assert block == a + b;
    CellsAppend(a, b, e, pos, n - pos);
    OneCell(v, e);
    ThreeParts(a, Encode(v, e), b, e, pos, n - pos);
  }

  lemma SameCell(c: seq<Byte>, block: seq<Byte>, x: nat, e: nat)
    requires x + e <= |c| && x + e <= |block| && c[..x + e] == block[..x + e]
    ensures c[x..x + e] == block[x..x + e] && c[..x] == block[..x]
  {
    assert c[x..x + e] == c[..x + e][x..] && block[x..x + e] == block[..x + e][x..];
    assert c[..x] == c[..x + e][..x] && block[..x] == block[..x + e][..x];
  }

  lemma WiderRange(v: int, a: nat, b: nat)
    requires InRange(v, a) && Half(a) <= Half(b)
    ensures InRange(v, b)
  {
  }

  /** Cell j in the new encoding starts no earlier than in the old one, and ends where cell j + 1 starts. */
  lemma WidenSpace(j: nat, prepend: nat, n: nat, curenc: nat, e: nat)
    requires j < n && prepend <= 1 && curenc < e
    ensures j * curenc + curenc == (j + 1) * curenc <= n * curenc
    ensures j * curenc <= (j + prepend) * e && (j + prepend) * e + e == (j + 1 + prepend) * e
    ensures (j + 1 + prepend) * e <= (n + prepend) * e <= (n + 1) * e
    ensures (n + prepend) * e - (j + prepend) * e == (n - j) * e
    ensures (n - j) * e == e + (n - j - 1) * e
  {
    Times(j, curenc);
    TimesGrows(j + 1, n, curenc);
    assert j * curenc <= j * e;
    TimesGrows(j, j + prepend, e);
    Times(j + prepend, e);
    TimesGrows(j + 1 + prepend, n + prepend, e);
    TimesGrows(n + prepend, n + 1, e);
    TimesAdd(j + prepend, n - j, e);
    Times(n - j - 1, e);
  }

  lemma OutsideRange(block: seq<Byte>, e: nat, n: nat, v: int)
    requires e > 0 && |block| == n * e && !InRange(v, e)
    ensures Splits(Cells(block, e, n), v, if v < 0 then 0 else n)
  {
    hide Cells;
    forall i | 0 <= i < n ensures if v < 0 then v < Cells(block, e, n)[i] else Cells(block, e, n)[i] < v {
      CellAt(block, e, n, i);
    }
  }

  lemma TimesWider(n: nat, a: nat, b: nat)
    requires a <= b
    ensures n * a <= n * b
  {
    TimesGrows(a, b, n);
  }

  /** With all the old numbers widened, the new one goes to the end that was left free. */
  lemma WidenedDone(c: seq<Byte>, block: seq<Byte>, curenc: nat, e: nat, prepend: nat, n: nat, v: int)
    requires prepend <= 1 && Widened(c, block, curenc, e, prepend, n, 0) && InRange(v, e)
    ensures |c| == (n + 1) * e == n * e + e && 0 * e == 0
    ensures prepend == 1 ==> Cells(Store(c, e, 0, v), e, n + 1) == [v] + Cells(block, curenc, n)
    ensures prepend == 0 ==> Cells(Store(c, e, n, v), e, n + 1) == Cells(block, curenc, n) + [v]
  {
    hide Cells, Encode, InRange;
    Times(n, e);
    OneCell(v, e);
    assert Cells(block, curenc, n)[0..] == Cells(block, curenc, n);
    if prepend == 1 {
      var tail := c[1 * e..(n + 1) * e];
      assert Store(c, e, 0, v) == Encode(v, e) + tail;
      CellsAppend(Encode(v, e), tail, e, 1, n);
    } else {
      var head := c[0 * e..n * e];
      assert Store(c, e, n, v) == head + Encode(v, e);
      CellsAppend(head, Encode(v, e), e, n, 1);
    }
  }

  lemma RemoveSpace(pos: nat, len: nat, e: nat)
    requires pos < len
    ensures (pos + 1) * e == pos * e + e && (len - 1) * e + e == len * e
    ensures (len - (pos + 1)) * e == len * e - pos * e - e >= 0
  {
    Times(pos, e);
    Times(len - 1, e);
    TimesLess(pos, len, e);
    TimesAdd(pos + 1, len - (pos + 1), e);
  }

  /** Moving what follows a cell over it, and cutting the block by the width of a cell. */
  lemma Closed(block: seq<Byte>, x: nat, e: nat)
    requires x + e <= |block|
    ensures var n := |block|;
      (block[..x] + block[x + e..n] + block[n - e..])[..n - e] == block[..x] + block[x + e..]
    ensures x + e == |block| ==> block[..|block| - e] == block[..x] + block[x + e..]
  {
  }

  lemma RemovedCells(block: seq<Byte>, e: nat, n: nat, pos: nat)
    requires e > 0 && |block| == n * e && pos < n
    ensures pos * e + e <= |block| && |block| - e == (n - 1) * e
    ensures Cells(block[..pos * e] + block[pos * e + e..], e, n - 1) == Cells(block, e, n)[..pos] + Cells(block, e, n)[pos + 1..]
  {
    hide Cells;
    RemoveSpace(pos, n, e);
    var k := n - pos - 1;
    var (a, m, b) := (block[..pos * e], block[pos * e..pos * e + e], block[pos * e + e..]);
    assert block == a + m + b;
    ThreeParts(a, m, b, e, pos, k);
    CellsAppend(a, b, e, pos, k);
  }
}
