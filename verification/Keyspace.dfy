/**
 The keyspace of one database and its indexes (db.c): the main dictionary, the dictionary of
 expire times and, in cluster mode, the sorted list of keys by hash slot. Every operation keeps the
 three in agreement.
 */
module Keyspace {
  import opened Common

  type Key = seq<Byte>
  type Value = seq<Byte>

  datatype Entry = Entry(slot: nat, key: Key)

  // ---------------------------------------------------------------- the order of the slot index

  /** compareStringObjects: byte by byte, then by length. */
  predicate Less(a: Key, b: Key) {
    if b == [] then false
    else if a == [] then true
    else if a[0] != b[0] then a[0] < b[0]
    else Less(a[1..], b[1..])
  }

  predicate Before(e: Entry, f: Entry) {
    e.slot < f.slot || (e.slot == f.slot && Less(e.key, f.key))
  }

  ghost predicate Sorted(index: seq<Entry>) {
    forall i, j {:trigger Before(index[i], index[j])} :: 0 <= i < j < |index| ==> Before(index[i], index[j])
  }

  lemma {:induction false} LessIsTotal(a: Key, b: Key)
    ensures a == b || Less(a, b) || Less(b, a)
    ensures !(Less(a, b) && Less(b, a)) && !Less(a, a)
  {
    if a != [] && b != [] && a[0] == b[0] {
      LessIsTotal(a[1..], b[1..]);
      LessIsTotal(a[1..], a[1..]);
      assert a == [a[0]] + a[1..] && b == [b[0]] + b[1..];
    } else if a != [] {
      LessIsTotal(a[1..], a[1..]);
    }
  }

  lemma {:induction false} LessIsTransitive(a: Key, b: Key, c: Key)
    requires Less(a, b) && Less(b, c)
    ensures Less(a, c)
  {
    if a != [] && a[0] == b[0] == c[0] {
      LessIsTransitive(a[1..], b[1..], c[1..]);
    }
  }

  lemma BeforeIsOrder(e: Entry, f: Entry, g: Entry)
    ensures e == f || Before(e, f) || Before(f, e)
    ensures !(Before(e, f) && Before(f, e)) && !Before(e, e)
    ensures Before(e, f) && Before(f, g) ==> Before(e, g)
  {
    LessIsTotal(e.key, f.key);
    LessIsTotal(e.key, e.key);
    if Before(e, f) && Before(f, g) && e.slot == f.slot == g.slot {
      LessIsTransitive(e.key, f.key, g.key);
    }
  }

  // ---------------------------------------------------------------- the slot index (zskiplist)

  /** Where the skiplist walk for e stops: the first entry not before it. */
  method Seek(index: seq<Entry>, e: Entry) returns (i: nat)
    requires Sorted(index)
    ensures i <= |index|
    ensures forall k :: 0 <= k < i ==> Before(index[k], e)
    ensures forall k :: i <= k < |index| ==> !Before(index[k], e)
  {
    i := 0;
    while i < |index| && Before(index[i], e)
      invariant i <= |index|
      invariant forall k :: 0 <= k < i ==> Before(index[k], e)
    {
      i := i + 1;
    }
    forall k | i <= k < |index| ensures !Before(index[k], e) {
      if k > i {
        BeforeIsOrder(index[i], index[k], e);
      }
    }
  }

  /** zslInsert */
  method Insert(index: seq<Entry>, e: Entry) returns (r: seq<Entry>)
    requires Sorted(index) && e !in index
    ensures Sorted(r)
    ensures forall x :: x in r <==> x == e || x in index
  {
    var i := Seek(index, e);
    r := index[..i] + [e] + index[i..];
    forall k | i <= k < |index| ensures Before(e, index[k]) {
      BeforeIsOrder(e, index[k], e);
    }
    forall x ensures x in r <==> x == e || x in index {
      assert x in index <==> x in index[..i] || x in index[i..] by {
        assert index == index[..i] + index[i..];
      }
    }
  }

  lemma SeekFinds(index: seq<Entry>, e: Entry, i: nat)
    requires Sorted(index) && i <= |index| && e in index
    requires forall k :: 0 <= k < i ==> Before(index[k], e)
    requires forall k :: i <= k < |index| ==> !Before(index[k], e)
    ensures i < |index| && index[i] == e
  {
    var k :| 0 <= k < |index| && index[k] == e;
    BeforeIsOrder(e, e, e);
    assert i <= k;
  }

  /** zslDelete */
  method Remove(index: seq<Entry>, e: Entry) returns (r: seq<Entry>)
    requires Sorted(index)
    ensures Sorted(r)
    ensures forall x :: x in r <==> x != e && x in index
  {
    var i := Seek(index, e);
    if e in index {
      SeekFinds(index, e, i);
    }
    if i < |index| && index[i] == e {
      r := index[..i] + index[i + 1..];
      assert index == index[..i] + [e] + index[i + 1..];
      BeforeIsOrder(e, e, e);
    } else {
      r := index;
    }
  }

  // ---------------------------------------------------------------- agreement

  /** Exactly one entry for each key, under the key's own slot. */
  ghost predicate Indexes(index: seq<Entry>, keys: set<Key>, slotOf: Key -> nat) {
    && Sorted(index)
    && (forall e :: e in index ==> e.key in keys && e.slot == slotOf(e.key))
    && (forall k :: k in keys ==> Entry(slotOf(k), k) in index)
  }

  /** The keys determine the index. */
  lemma {:induction false} IndexIsDetermined(a: seq<Entry>, b: seq<Entry>)
    requires Sorted(a) && Sorted(b) && forall e :: e in a <==> e in b
    ensures a == b
    decreases |a|
  {
    assert |a| > 0 ==> a[0] in a;
    assert |b| > 0 ==> b[0] in b;
    if a != [] {
      assert a[0] in b && b[0] in a;
      var i :| 0 <= i < |b| && b[i] == a[0];
      var j :| 0 <= j < |a| && a[j] == b[0];
      BeforeIsOrder(a[0], b[0], a[0]);
      assert a[0] == b[0];
      forall e ensures e in a[1..] <==> e in b[1..] {
        BeforeIsOrder(a[0], a[0], a[0]);
        assert e in a <==> e == a[0] || e in a[1..];
        assert e in b <==> e == b[0] || e in b[1..];
        assert a[0] !in a[1..] && b[0] !in b[1..];
      }
      IndexIsDetermined(a[1..], b[1..]);
      assert a == [a[0]] + a[1..] && b == [b[0]] + b[1..];
    }
  }

  // ---------------------------------------------------------------- the database

  /** What a lookup depends on besides the data: loading an AOF or RDB, being a replica, the time. */
  datatype Moment = Moment(loading: bool, replica: bool, now: int)

  /** Whether a key with this expire time is deleted when touched at this moment. */
  predicate Lapses(expires: map<Key, int>, key: Key, at: Moment) {
    key in expires && expires[key] >= 0 && !at.loading && !at.replica && at.now > expires[key]
  }

  datatype RenameReply = NoSuchKey | Refused | Done

  class Database {
    const clusterEnabled: bool
    const slotOf: Key -> nat
    var dict: map<Key, Value>
    var expires: map<Key, int>
    var slotsToKeys: seq<Entry>

    ghost predicate Valid()
      reads this
    {
      && expires.Keys <= dict.Keys
      && (if clusterEnabled then Indexes(slotsToKeys, dict.Keys, slotOf) else slotsToKeys == [])
    }

    constructor (clusterEnabled: bool, slotOf: Key -> nat)
      ensures Valid() && dict == map[] && expires == map[]
      ensures this.clusterEnabled == clusterEnabled && this.slotOf == slotOf
    {
      this.clusterEnabled := clusterEnabled;
      this.slotOf := slotOf;
      dict := map[];
      expires := map[];
      slotsToKeys := [];
    }

    /** dbAdd: the program aborts if the key exists. */
    method DbAdd(key: Key, val: Value)
      requires Valid() && key !in dict
      modifies this
      ensures Valid() && dict == old(dict)[key := val] && expires == old(expires)
    {
      dict := dict[key := val];
      if clusterEnabled {
        slotsToKeys := Insert(slotsToKeys, Entry(slotOf(key), key));
      }
    }

    /** dbOverwrite: the program aborts if the key does not exist. The expire time stays. */
    method DbOverwrite(key: Key, val: Value)
      requires Valid() && key in dict
      modifies this
      ensures Valid() && dict == old(dict)[key := val] && expires == old(expires)
    {
      dict := dict[key := val];
    }

    /** dbDelete */
    method DbDelete(key: Key) returns (deleted: bool)
      requires Valid()
      modifies this
      ensures Valid() && dict == old(dict) - {key} && expires == old(expires) - {key}
      ensures deleted == (key in old(dict))
      ensures clusterEnabled ==> forall e :: e in slotsToKeys <==> e in old(slotsToKeys) && e.key != key
    {
      expires := expires - {key};
      deleted := key in dict;
      if deleted {
        dict := dict - {key};
        if clusterEnabled {
          slotsToKeys := Remove(slotsToKeys, Entry(slotOf(key), key));
        }
      }
    }

    /** setExpire: the program aborts if the key does not exist. */
    method SetExpire(key: Key, when: int)
      requires Valid() && key in dict
      modifies this
      ensures Valid() && dict == old(dict) && expires == old(expires)[key := when]
    {
      expires := expires[key := when];
    }

    /** removeExpire: the program aborts if the key does not exist. */
    method RemoveExpire(key: Key) returns (removed: bool)
      requires Valid() && key in dict
      modifies this
      ensures Valid() && dict == old(dict) && expires == old(expires) - {key}
      ensures removed == (key in old(expires))
    {
      removed := key in expires;
      expires := expires - {key};
    }

    /** getExpire: -1 stands for no expire time. The safety assertion on dict never fires. */
    method GetExpire(key: Key) returns (when: int)
      requires Valid()
      ensures when == (if key in expires then expires[key] else -1)
      ensures key in expires ==> key in dict
    {
      if key in expires {
        assert key in dict;
        when := expires[key];
      } else {
        when := -1;
      }
    }

    /** expireIfNeeded: true when the key is, or counts as, expired. */
    method ExpireIfNeeded(key: Key, at: Moment) returns (expired: bool)
      requires Valid()
      modifies this
      ensures Valid()
      ensures if Lapses(old(expires), key, at)
              then dict == old(dict) - {key} && expires == old(expires) - {key}
              else dict == old(dict) && expires == old(expires)
      ensures key !in dict && key in old(dict) <==>
                key in old(expires) && old(expires)[key] >= 0 && at.now > old(expires)[key] && !at.loading && !at.replica
      ensures expired == (key in old(expires) && old(expires)[key] >= 0 && !at.loading && at.now > old(expires)[key])
    {
      var when := GetExpire(key);
      if when < 0 {
        return false;
      }
      if at.loading {
        return false;
      }
      if at.replica {
        return at.now > when;
      }
      if at.now <= when {
        return false;
      }
      expired := DbDelete(key);
    }

    /** lookupKeyWrite */
    method LookupKeyWrite(key: Key, at: Moment) returns (val: Option<Value>)
      requires Valid()
      modifies this
      ensures Valid()
      ensures if Lapses(old(expires), key, at)
              then dict == old(dict) - {key} && expires == old(expires) - {key}
              else dict == old(dict) && expires == old(expires)
      ensures val == (if key in dict then Some(dict[key]) else None)
    {
      var expired := ExpireIfNeeded(key, at);
      val := if key in dict then Some(dict[key]) else None;
    }

    /** setKey: the key ends with the value and without an expire time, whether or not it was there. */
    method SetKey(key: Key, val: Value, at: Moment)
      requires Valid()
      modifies this
      ensures Valid() && dict == old(dict)[key := val] && expires == old(expires) - {key}
    {
      var found := LookupKeyWrite(key, at);
      if found == None {
        DbAdd(key, val);
      } else {
        DbOverwrite(key, val);
      }
      var removed := RemoveExpire(key);
    }

    /** The end of renameGenericCommand: the value and a non-default expire time go to dst. */
    method MoveKey(src: Key, dst: Key, val: Value, expire: int)
      requires Valid() && src != dst && src in dict && dst !in dict
      modifies this
      ensures Valid() && dict == (old(dict) - {src})[dst := val]
      ensures expires == if expire != -1 then (old(expires) - {src})[dst := expire] else old(expires) - {src}
    {
      DbAdd(dst, val);
      if expire != -1 {
        SetExpire(dst, expire);
      }
      var deleted := DbDelete(src);
    }

    /** renameGenericCommand; `first` and `second` are the moments of its two lookups. The value and
        the expire time move to the new name, except that an expire time of -1 is taken for none. */
    method Rename(src: Key, dst: Key, nx: bool, first: Moment, second: Moment) returns (reply: RenameReply)
      requires Valid()
      modifies this
      ensures Valid()
      ensures reply == NoSuchKey <==> src !in old(dict) || Lapses(old(expires), src, first)
      ensures reply == Refused <==>
                && src in old(dict) && !Lapses(old(expires), src, first) && nx
                && (src == dst || (dst in old(dict) && !Lapses(old(expires), dst, second)))
      ensures reply == Done && src != dst ==>
                && dict == (old(dict) - {src})[dst := old(dict)[src]]
                && expires == (if src in old(expires) && old(expires)[src] != -1
                               then (old(expires) - {src})[dst := old(expires)[src]]
                               else old(expires) - {src, dst})
      ensures reply == Done && src == dst ==> dict == old(dict) && expires == old(expires)
      ensures reply == Refused ==> dict == old(dict) && expires == old(expires)
      ensures reply == NoSuchKey ==> dict == old(dict) - {src} && expires == old(expires) - {src}
    {
      var o := LookupKeyWrite(src, first);
      if o == None {
        return NoSuchKey;
      }
      if src == dst {
        return if nx then Refused else Done;
      }
      var expire := GetExpire(src);
      ghost var (dict1, expires1) := (dict, expires);
      var target := LookupKeyWrite(dst, second);
      if target != None {
        if nx {
          return Refused;
        }
        var deleted := DbDelete(dst);
      }
      assert dict == dict1 - {dst} && expires == expires1 - {dst};
      MoveKey(src, dst, o.value, expire);
      reply := Done;
    }

    /** A key whose expire time is -1 has none under its new name. */
    method RenameLosesExpire(src: Key, dst: Key, at: Moment) returns (reply: RenameReply)
      requires Valid() && src in dict && src in expires && expires[src] == -1 && src != dst
      modifies this
      ensures Valid() && reply == Done && dst in dict && dict[dst] == old(dict)[src]
      ensures src in old(expires) && dst !in expires
    {
      reply := Rename(src, dst, false, at, at);
    }

    /** flushdbCommand, and emptyDb on this database. */
    method EmptyDb() returns (removed: nat)
      requires Valid()
      modifies this
      ensures Valid() && dict == map[] && expires == map[] && removed == |old(dict)|
    {
      removed := |dict|;
      dict := map[];
      expires := map[];
      if clusterEnabled {
        slotsToKeys := [];
      }
    }

    ghost function KeysInSlot(h: nat): set<Key>
      reads this
    {
      set k | k in dict && slotOf(k) == h
    }

    /** zslFirstInRange and zslLastInRange for one slot: the stretch [lo, hi) of its entries. */
    method SlotRange(h: nat) returns (lo: nat, hi: nat)
      requires Valid() && clusterEnabled
      ensures lo <= hi <= |slotsToKeys|
      ensures forall i :: 0 <= i < |slotsToKeys| ==> (slotsToKeys[i].slot == h <==> lo <= i < hi)
      ensures SplitAt(slotsToKeys, lo, h)
    {
      lo := 0;
      while lo < |slotsToKeys| && slotsToKeys[lo].slot < h
        invariant lo <= |slotsToKeys|
        invariant forall i :: 0 <= i < lo ==> slotsToKeys[i].slot < h
      {
        lo := lo + 1;
      }
      assert forall i :: lo < i < |slotsToKeys| ==> Before(slotsToKeys[lo], slotsToKeys[i]);
      hi := lo;
      while hi < |slotsToKeys| && slotsToKeys[hi].slot <= h
        invariant lo <= hi <= |slotsToKeys|
        invariant forall i :: lo <= i < hi ==> slotsToKeys[i].slot == h
      {
        hi := hi + 1;
      }
      assert forall i :: hi < i < |slotsToKeys| ==> Before(slotsToKeys[hi], slotsToKeys[i]);
    }

    /** countKeysInSlot: the rank arithmetic gives the number of keys hashing to the slot. */
    method CountKeysInSlot(h: nat) returns (count: int)
      requires Valid() && clusterEnabled
      ensures count == |KeysInSlot(h)|
    {
      var lo, hi := SlotRange(h);
      count := 0;
      if lo < hi {
        var firstRank, lastRank, length := lo + 1, hi, |slotsToKeys|;
        count := length - (firstRank - 1);
        count := count - (length - lastRank);
      }
      DistinctKeys(slotsToKeys[lo..hi]);
      assert KeysInSlot(h) == KeysOf(slotsToKeys[lo..hi]) by {
        forall k | k in KeysInSlot(h) ensures k in KeysOf(slotsToKeys[lo..hi]) {
          assert Entry(h, k) in slotsToKeys;
        }
      }
    }

    /** Deleting the key of entry i takes exactly that entry out of the index. */
    method DeleteEntry(i: nat) returns (key: Key)
      requires Valid() && clusterEnabled && i < |slotsToKeys|
      modifies this
      ensures Valid() && slotsToKeys == old(slotsToKeys)[..i] + old(slotsToKeys)[i + 1..]
      ensures key == old(slotsToKeys)[i].key && key in old(dict) && slotOf(key) == old(slotsToKeys)[i].slot
      ensures dict == old(dict) - {key} && expires == old(expires) - {key}
    {
      ghost var before := slotsToKeys;
      key := slotsToKeys[i].key;
      RemovedAt(slotsToKeys, i);
      assert forall e :: e in before ==> (e.key == key <==> e == before[i]);
      var deleted := DbDelete(key);
      IndexIsDetermined(slotsToKeys, before[..i] + before[i + 1..]);
    }

    /** delKeysInSlot: every key of the slot goes, with its expire time, and no other key does. */
    method DelKeysInSlot(h: nat) returns (removed: nat)
      requires Valid() && clusterEnabled
      modifies this
      ensures Valid() && removed == |old(KeysInSlot(h))| && KeysInSlot(h) == {}
      ensures dict == old(dict) - old(KeysInSlot(h)) && expires == old(expires) - old(KeysInSlot(h))
    {
      removed := 0;
      ghost var (all, gone: set<Key>) := (KeysInSlot(h), {});
      var lo, hi := SlotRange(h);
      while lo < |slotsToKeys| && slotsToKeys[lo].slot == h
        invariant Valid() && SplitAt(slotsToKeys, lo, h)
        invariant dict == old(dict) - gone && expires == old(expires) - gone
        invariant gone <= all && removed == |gone|
        decreases |slotsToKeys|
      {
        SplitKept(slotsToKeys, lo, h);
        assert slotsToKeys[lo] in slotsToKeys;
        var key := DeleteEntry(lo);
        LessOne(old(dict), gone, key);
        LessOne(old(expires), gone, key);
        gone := gone + {key};
        removed := removed + 1;
      }
      NoneInSlot(h, lo);
      assert forall k :: k in all && k !in gone ==> k in dict;
      assert gone == all;
    }

    lemma NoneInSlot(h: nat, lo: nat)
      requires Valid() && clusterEnabled && SplitAt(slotsToKeys, lo, h)
      requires lo < |slotsToKeys| ==> slotsToKeys[lo].slot > h
      ensures forall k :: k in dict ==> slotOf(k) != h
    {
      forall k | k in dict ensures slotOf(k) != h {
        assert Entry(slotOf(k), k) in slotsToKeys;
        var i :| 0 <= i < |slotsToKeys| && slotsToKeys[i] == Entry(slotOf(k), k);
        if lo < i {
          assert Before(slotsToKeys[lo], slotsToKeys[i]);
        }
      }
    }
  }

  /** The entries below position lo have smaller slots than h, those from lo on do not. */
  ghost predicate SplitAt(index: seq<Entry>, lo: nat, h: nat) {
    && lo <= |index|
    && (forall i :: 0 <= i < lo ==> index[i].slot < h)
    && (forall i :: lo <= i < |index| ==> index[i].slot >= h)
  }

  // ---------------------------------------------------------------- lemmas on the index

  lemma SplitKept(index: seq<Entry>, i: nat, h: nat)
    requires SplitAt(index, i, h) && i < |index|
    ensures SplitAt(index[..i] + index[i + 1..], i, h)
  {
  }

  lemma LessOne<T>(m: map<Key, T>, gone: set<Key>, key: Key)
    ensures m - gone - {key} == m - (gone + {key})
  {
  }

  function KeysOf(index: seq<Entry>): set<Key> {
    set e | e in index :: e.key
  }

  /** Entries of one slot have distinct keys. */
  lemma {:induction false} DistinctKeys(index: seq<Entry>)
    requires Sorted(index) && forall i, j :: 0 <= i < |index| && 0 <= j < |index| ==> index[i].slot == index[j].slot
    ensures |KeysOf(index)| == |index|
  {
    if index != [] {
      var rest, last := index[..|index| - 1], index[|index| - 1];
      DistinctKeys(rest);
      assert index == rest + [last];
      assert KeysOf(index) == KeysOf(rest) + {last.key};
      if last.key in KeysOf(rest) {
        var e :| e in rest && e.key == last.key;
        var i :| 0 <= i < |rest| && rest[i] == e;
        assert Before(index[i], last);
        LessIsTotal(e.key, last.key);
        assert false;
      }
    }
  }

  lemma RemovedAt(index: seq<Entry>, i: nat)
    requires Sorted(index) && i < |index|
    ensures Sorted(index[..i] + index[i + 1..])
    ensures forall e :: e in index[..i] + index[i + 1..] <==> e in index && e != index[i]
  {
    var r := index[..i] + index[i + 1..];
    assert index == index[..i] + [index[i]] + index[i + 1..];
    BeforeIsOrder(index[i], index[i], index[i]);
  }
}
