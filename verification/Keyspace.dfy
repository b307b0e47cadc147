/** The keyspace of a cluster node: the dictionary, the expires table, and an ordered
    index from hash slots to keys with per-slot counts, updated together. The index
    holds each key behind the two bytes of its slot, so that the keys of a slot are
    next to each other. */
module Keyspace {
  import opened ClusterBasics
  import opened Resp

  type Key = Bytes

  const OPEN: Byte := 123
  const CLOSE: Byte := 125
  const NO_EXPIRE := -1

  // ---------------------------------------------------------------- hash slots

  /** The first position of `b` from `i` on, or the end. */
  function Find(s: Bytes, b: Byte, i: nat): (r: nat)
    requires i <= |s|
    ensures i <= r <= |s| && (r < |s| ==> s[r] == b) && forall j :: i <= j < r ==> s[j] != b
    decreases |s| - i
  {
    if i == |s| || s[i] == b then i else Find(s, b, i + 1)
  }

  /** What is hashed: what is between the first brace and the next closing one, if that
      is not empty, and otherwise the whole key. */
  function Tag(key: Key): Bytes {
    var s := Find(key, OPEN, 0);
    if s == |key| then key
    else
      var e := Find(key, CLOSE, s + 1);
      if e == |key| || e == s + 1 then key else key[s + 1..e]
  }

  function Slot(crc16: Bytes -> nat, key: Key): (r: nat)
    ensures r < SLOTS
  {
    crc16(Tag(key)) % SLOTS
  }

  /** The search loops of the hash function. */
  method KeyHashSlot(crc16: Bytes -> nat, key: Key) returns (slot: nat)
    ensures slot == Slot(crc16, key)
  {
    var s := 0;
    while s < |key| && key[s] != OPEN
      invariant 0 <= s <= |key| && Find(key, OPEN, 0) == Find(key, OPEN, s)
    {
      s := s + 1;
    }
    if s == |key| { return crc16(key) % SLOTS; }
    var e := s + 1;
    while e < |key| && key[e] != CLOSE
      invariant s < e <= |key| && Find(key, CLOSE, s + 1) == Find(key, CLOSE, e)
    {
      e := e + 1;
    }
    if e == |key| || e == s + 1 { return crc16(key) % SLOTS; }
    slot := crc16(key[s + 1..e]) % SLOTS;
  }

  /** Keys of one tag share a slot, whatever surrounds the tag. */
  lemma TaggedTogether(crc16: Bytes -> nat, a: Bytes, b: Bytes, tag: Bytes, c: Bytes, d: Bytes)
    requires tag != [] && CLOSE !in tag && OPEN !in a && OPEN !in c
    ensures Slot(crc16, a + [OPEN] + tag + [CLOSE] + b) == Slot(crc16, c + [OPEN] + tag + [CLOSE] + d)
  {
    TagIs(a, tag, b);
    TagIs(c, tag, d);
  }

  lemma TagIs(a: Bytes, tag: Bytes, b: Bytes)
    requires tag != [] && CLOSE !in tag && OPEN !in a
    ensures Tag(a + [OPEN] + tag + [CLOSE] + b) == tag
  {
    var key := a + [OPEN] + tag + [CLOSE] + b;
    FindIs(key, OPEN, 0, |a|);
    assert forall j :: 0 <= j < |tag| ==> key[|a| + 1 + j] == tag[j];
    FindIs(key, CLOSE, |a| + 1, |a| + 1 + |tag|);
    assert key[|a| + 1..|a| + 1 + |tag|] == tag;
  }

  /** A tag is hashed alone; a key without an opening brace, without a closing one after
      it, or with nothing between the two, is hashed whole. */
  lemma HashedPart(crc16: Bytes -> nat, a: Bytes, tag: Bytes, b: Bytes)
    requires OPEN !in a && CLOSE !in tag
    ensures Slot(crc16, a) == crc16(a) % 16384
    ensures Slot(crc16, a + [OPEN] + tag) == crc16(a + [OPEN] + tag) % 16384
    ensures var key := a + [OPEN] + tag + [CLOSE] + b;
            Slot(crc16, key) == (if tag == [] then crc16(key) else crc16(tag)) % 16384
  {
    FindNone(a, OPEN, 0);
    var open := a + [OPEN] + tag;
    FindIs(open, OPEN, 0, |a|);
    assert forall j :: 0 <= j < |tag| ==> open[|a| + 1 + j] == tag[j];
    FindNone(open, CLOSE, |a| + 1);
    if tag != [] {
      TagIs(a, tag, b);
    } else {
      var key := a + [OPEN] + tag + [CLOSE] + b;
      FindIs(key, OPEN, 0, |a|);
      FindIs(key, CLOSE, |a| + 1, |a| + 1);
    }
  }

  lemma {:induction false} FindNone(s: Bytes, b: Byte, i: nat)
    requires i <= |s| && forall j :: i <= j < |s| ==> s[j] != b
    ensures Find(s, b, i) == |s|
    decreases |s| - i
  {
    if i < |s| {
      FindNone(s, b, i + 1);
    }
  }

  lemma {:induction false} FindIs(s: Bytes, b: Byte, i: nat, r: nat)
    requires i <= r < |s| && s[r] == b && forall j :: i <= j < r ==> s[j] != b
    ensures Find(s, b, i) == r
  {
  }

  // ---------------------------------------------------------------- the order of the index

  predicate Le(a: Bytes, b: Bytes) {
    a == [] || (b != [] && (a[0] < b[0] || (a[0] == b[0] && Le(a[1..], b[1..]))))
  }

  lemma {:induction false} LeTotal(a: Bytes, b: Bytes)
    ensures Le(a, b) || Le(b, a)
    ensures Le(a, a)
    decreases |a|
  {
    if a != [] {
      LeTotal(a[1..], if b == [] then [] else b[1..]);
    }
  }

  lemma {:induction false} LeTransitive(a: Bytes, b: Bytes, c: Bytes)
    requires Le(a, b) && Le(b, c)
    ensures Le(a, c)
    decreases |a|
  {
    if a != [] && a[0] == b[0] && b[0] == c[0] {
      LeTransitive(a[1..], b[1..], c[1..]);
    }
  }

  /** The two bytes of a slot. */
  function Prefix(slot: nat): Bytes
    requires slot < SLOTS
  {
    [(slot / 256) as Byte, (slot % 256) as Byte]
  }

  function Indexed(crc16: Bytes -> nat, key: Key): Bytes {
    Prefix(Slot(crc16, key)) + key
  }

  /** What lies between a slot's prefix and one of its entries starts with the prefix. */
  lemma Between(p: Bytes, m: Bytes, e: Bytes)
    requires |p| == 2 && Le(p, m) && Le(m, e) && |e| >= 2 && e[..2] == p
    ensures |m| >= 2 && m[..2] == p
  {
    assert p[1..] == [p[1]] && p[1..][1..] == [];
    assert e[0] == p[0] && e[1] == p[1];
    assert m[0] == p[0];
    assert Le(p[1..], m[1..]) && Le(m[1..], e[1..]);
    assert m[1..] != [];
    assert m[..2] == [m[0], m[1]] && p == [p[0], p[1]];
  }

  /** The index is in the order of the slots, whatever the keys. */
  lemma SlotsInOrder(a: nat, j: Key, b: nat, k: Key)
    requires a < b < SLOTS
    ensures Le(Prefix(a) + j, Prefix(b) + k) && !Le(Prefix(b) + k, Prefix(a) + j)
  {
    var x, y := Prefix(a) + j, Prefix(b) + k;
    assert x[0] == (a / 256) as Byte && y[0] == (b / 256) as Byte;
    if a / 256 == b / 256 {
      assert a % 256 < b % 256;
      assert x[1..][0] == (a % 256) as Byte && y[1..][0] == (b % 256) as Byte;
    }
  }

  lemma PrefixTells(a: nat, b: nat)
    requires a < SLOTS && b < SLOTS && Prefix(a) == Prefix(b)
    ensures a == b
  {
    assert Prefix(a)[0] == Prefix(b)[0] && Prefix(a)[1] == Prefix(b)[1];
  }

  lemma {:induction false} LeastExists(s: set<Bytes>) returns (m: Bytes)
    requires s != {}
    ensures m in s && forall e :: e in s ==> Le(m, e)
    decreases s
  {
    var x :| x in s;
    LeTotal(x, x);
    if s == {x} {
      return x;
    }
    var rest := s - {x};
    assert rest != {};
    var y := LeastExists(rest);
    LeTotal(x, y);
    if Le(x, y) {
      forall e | e in s ensures Le(x, e) {
        if e != x {
          assert e in rest;
          LeTransitive(x, y, e);
        }
      }
      m := x;
    } else {
      m := y;
      assert forall e :: e in s ==> e == x || e in rest;
    }
  }

  // ---------------------------------------------------------------- the keyspace

  /** The keys of a slot. */
  function InSlot(crc16: Bytes -> nat, keys: set<Key>, slot: nat): set<Key> {
    set k | k in keys && Slot(crc16, k) == slot
  }

  function IndexOf(crc16: Bytes -> nat, keys: set<Key>): set<Bytes> {
    set k | k in keys :: Indexed(crc16, k)
  }

  lemma IndexedApart(crc16: Bytes -> nat, j: Key, k: Key)
    ensures Indexed(crc16, j) == Indexed(crc16, k) ==> j == k
  {
    assert j == Indexed(crc16, j)[2..] && k == Indexed(crc16, k)[2..];
  }

  lemma IndexAdd(crc16: Bytes -> nat, keys: set<Key>, key: Key)
    ensures IndexOf(crc16, keys + {key}) == IndexOf(crc16, keys) + {Indexed(crc16, key)}
  {
    hide Indexed;
  }

  lemma IndexDrop(crc16: Bytes -> nat, keys: set<Key>, key: Key)
    ensures IndexOf(crc16, keys - {key}) == IndexOf(crc16, keys) - {Indexed(crc16, key)}
  {
    hide Indexed;
    forall k | k in keys - {key} ensures Indexed(crc16, k) != Indexed(crc16, key) {
      IndexedApart(crc16, k, key);
    }
  }

  lemma SlotsAdd(crc16: Bytes -> nat, keys: set<Key>, key: Key)
    requires key !in keys
    ensures forall s :: 0 <= s < SLOTS ==>
      |InSlot(crc16, keys + {key}, s)| == |InSlot(crc16, keys, s)| + if s == Slot(crc16, key) then 1 else 0
  {
    forall s | 0 <= s < SLOTS
      ensures |InSlot(crc16, keys + {key}, s)| == |InSlot(crc16, keys, s)| + if s == Slot(crc16, key) then 1 else 0
    {
      assert InSlot(crc16, keys + {key}, s) == InSlot(crc16, keys, s) + if s == Slot(crc16, key) then {key} else {};
    }
  }

  lemma SlotsDrop(crc16: Bytes -> nat, keys: set<Key>, key: Key)
    requires key in keys
    ensures forall s :: 0 <= s < SLOTS ==>
      |InSlot(crc16, keys - {key}, s)| == |InSlot(crc16, keys, s)| - if s == Slot(crc16, key) then 1 else 0
  {
    assert (keys - {key}) + {key} == keys;
    SlotsAdd(crc16, keys - {key}, key);
  }

  /** If the slot has keys there is an entry at or after its prefix. */
  lemma FirstOfSlot(crc16: Bytes -> nat, keys: set<Key>, slot: nat)
    requires slot < SLOTS && |InSlot(crc16, keys, slot)| != 0
    ensures exists e :: e in IndexOf(crc16, keys) && Le(Prefix(slot), e)
  {
    hide Le;
    var k :| k in InSlot(crc16, keys, slot);
    PrefixFirst(Prefix(slot), k);
    assert Indexed(crc16, k) in IndexOf(crc16, keys);
  }

  /** And the first such entry is a key of the slot. */
  lemma SeekFinds(crc16: Bytes -> nat, keys: set<Key>, slot: nat, m: Bytes)
    requires slot < SLOTS && |InSlot(crc16, keys, slot)| != 0
    requires m in IndexOf(crc16, keys) && Le(Prefix(slot), m)
    requires forall e :: e in IndexOf(crc16, keys) && Le(Prefix(slot), e) ==> Le(m, e)
    ensures |m| >= 2 && m[2..] in InSlot(crc16, keys, slot)
  {
    hide Le;
    var k :| k in InSlot(crc16, keys, slot);
    var e := Indexed(crc16, k);
    assert e in IndexOf(crc16, keys);
    PrefixFirst(Prefix(slot), k);
    assert e == Prefix(slot) + k;
    Between(Prefix(slot), m, e);
    var j :| j in keys && m == Indexed(crc16, j);
    assert m[..2] == Prefix(Slot(crc16, j)) && m[2..] == j;
    PrefixTells(slot, Slot(crc16, j));
  }

  lemma PrefixFirst(p: Bytes, k: Bytes)
    requires |p| == 2
    ensures Le(p, p + k)
  {
    assert p[1..] == [p[1]] && p[1..][1..] == [];
    assert (p + k)[1..][0] == p[1];
    assert Le(p[1..], (p + k)[1..]);
  }

  /** `m` without `key` if its time is over and this server deletes expired keys itself. */
  function Live<T>(m: map<Key, T>, expires: map<Key, int>, key: Key, now: int, replica: bool): map<Key, T> {
    if !replica && key in expires && expires[key] >= 0 && now > expires[key] then m - {key} else m
  }

  class Db<V> {
    const crc16: Bytes -> nat
    const counts: array<int>
    var dict: map<Key, V>
    var expires: map<Key, int>
    var index: set<Bytes>

    ghost predicate Valid()
      reads this, counts
    {
      && counts.Length == SLOTS && expires.Keys <= dict.Keys && index == IndexOf(crc16, dict.Keys)
      && forall s :: 0 <= s < SLOTS ==> counts[s] == |InSlot(crc16, dict.Keys, s)|
    }

    constructor (crc16: Bytes -> nat)
      ensures Valid() && fresh(counts) && dict == map[] && expires == map[] && this.crc16 == crc16
    {
      this.crc16 := crc16;
      counts := new int[SLOTS](_ => 0);
      dict, expires, index := map[], map[], {};
    }

    /** The key joins or leaves the index and its slot's count. */
    method SlotToKeyUpdateKey(key: Key, add: bool)
      requires counts.Length == SLOTS
      modifies this`index, counts
      ensures index == if add then old(index) + {Indexed(crc16, key)} else old(index) - {Indexed(crc16, key)}
      ensures forall s :: 0 <= s < SLOTS ==>
        counts[s] == old(counts[s]) + if s != Slot(crc16, key) then 0 else if add then 1 else -1
    {
      var slot := KeyHashSlot(crc16, key);
      counts[slot] := counts[slot] + if add then 1 else -1;
      var indexed := [(slot / 256) as Byte, (slot % 256) as Byte] + key;
      index := if add then index + {indexed} else index - {indexed};
    }

    /** A new key; the key must not exist. */
    method DbAdd(key: Key, val: V)
      requires Valid() && key !in dict
      modifies this`dict, this`index, counts
      ensures Valid() && dict == old(dict)[key := val]
    {
      hide Indexed;
      IndexAdd(crc16, dict.Keys, key);
      SlotsAdd(crc16, dict.Keys, key);
      dict := dict[key := val];
      assert dict.Keys == old(dict.Keys) + {key};
      SlotToKeyUpdateKey(key, true);
    }

    /** A new value; the key must exist and keeps its expiry. */
    method DbOverwrite(key: Key, val: V)
      requires Valid() && key in dict
      modifies this`dict
      ensures Valid() && dict == old(dict)[key := val]
    {
      dict := dict[key := val];
      assert dict.Keys == old(dict.Keys);
    }

    method RemoveExpire(key: Key) returns (removed: bool)
      requires Valid() && key in dict
      modifies this`expires
      ensures Valid() && expires == old(expires) - {key} && removed == (key in old(expires))
    {
      removed := key in expires;
      expires := expires - {key};
    }

    method SetExpire(key: Key, when: int)
      requires Valid() && key in dict
      modifies this`expires
      ensures Valid() && expires == old(expires)[key := when]
    {
      expires := expires[key := when];
    }

    /** -1 if the key has no expiry; a key that has one exists. */
    method GetExpire(key: Key) returns (when: int)
      requires Valid()
      ensures when == if key in expires then expires[key] else NO_EXPIRE
      ensures key in expires ==> key in dict
    {
      if key !in expires { return NO_EXPIRE; }
      when := expires[key];
    }

    /** Sets a key, new or not; it has no expiry afterwards. */
    method SetKey(key: Key, val: V)
      requires Valid()
      modifies this`dict, this`index, this`expires, counts
      ensures Valid() && dict == old(dict)[key := val] && expires == old(expires) - {key}
    {
      if key !in dict {
        DbAdd(key, val);
      } else {
        DbOverwrite(key, val);
      }
      var _ := RemoveExpire(key);
    }

    /** Deletes a key with its expiry and its index entry. */
    method DbSyncDelete(key: Key) returns (deleted: bool)
      requires Valid()
      modifies this`dict, this`index, this`expires, counts
      ensures Valid() && deleted == (key in old(dict))
      ensures dict == old(dict) - {key} && expires == old(expires) - {key}
    {
      hide Indexed;
      expires := expires - {key};
      deleted := key in dict;
      if deleted {
        IndexDrop(crc16, dict.Keys, key);
        SlotsDrop(crc16, dict.Keys, key);
        dict := dict - {key};
        assert dict.Keys == old(dict.Keys) - {key};
        SlotToKeyUpdateKey(key, false);
      } else {
        assert dict == dict - {key};
      }
    }

    /** Deletes a key that is past its time, on a master. */
    method ExpireIfNeeded(key: Key, now: int, replica: bool) returns (expired: bool)
      requires Valid()
      modifies this`dict, this`index, this`expires, counts
      ensures Valid() && expired == (key in old(expires) && old(expires)[key] >= 0 && now > old(expires)[key])
      ensures dict == if expired && !replica then old(dict) - {key} else old(dict)
      ensures expires == if expired && !replica then old(expires) - {key} else old(expires)
    {
      var when := GetExpire(key);
      expired := when >= 0 && now > when;
      if expired && !replica {
        var _ := DbSyncDelete(key);
      }
    }

    /** Moves a value and its expiry to a name, replacing what was there unless told not to. */
    method RenameLive(key: Key, to: Key, nx: bool) returns (ok: bool)
      requires Valid()
      modifies this`dict, this`index, this`expires, counts
      ensures Valid()
      ensures ok == (key in old(dict) && !(nx && to in old(dict)))
      ensures !ok || key == to ==> dict == old(dict) && expires == old(expires)
      ensures ok && key != to ==> dict == (old(dict) - {key})[to := old(dict)[key]]
      ensures ok && key != to ==>
        expires == if key in old(expires) && old(expires)[key] != NO_EXPIRE then (old(expires) - {key})[to := old(expires)[key]]
                   else old(expires) - {key, to}
    {
      hide InSlot, IndexOf;
      if key !in dict { return false; }
      if key == to { return !nx; }
      var o := dict[key];
      var expire := GetExpire(key);
      if to in dict {
        if nx { return false; }
        var _ := DbSyncDelete(to);
      }
      MoveTo(key, to, o, expire);
      ok := true;
    }

    /** RENAME and RENAMENX: the value and the expiry move to the new name, which loses
        what it had. A key with an expiry of -1 is taken to have none. */
    method Rename(key: Key, to: Key, nx: bool, now: int, replica: bool) returns (ok: bool)
      requires Valid()
      modifies this`dict, this`index, this`expires, counts
      ensures Valid()
      ensures var d, e := Live(old(dict), old(expires), key, now, replica), Live(old(expires), old(expires), key, now, replica);
              var both := key in d && key != to;
              var d2, e2 := if both then Live(d, e, to, now, replica) else d, if both then Live(e, e, to, now, replica) else e;
              && ok == (key in d && !(nx && to in d2))
              && (!ok || key == to ==> dict == d2 && expires == e2)
              && (ok && key != to ==>
                    && key in d2 && dict == (d2 - {key})[to := d2[key]]
                    && expires == if key in e2 && e2[key] != NO_EXPIRE then (e2 - {key})[to := e2[key]] else e2 - {key, to})
    {
      hide InSlot, IndexOf;
      var _ := ExpireIfNeeded(key, now, replica);
      if key !in dict { return false; }
      if key != to {
        var _ := ExpireIfNeeded(to, now, replica);
      }
      ok := RenameLive(key, to, nx);
    }

    /** The last part of a rename: the new name is free. */
    method MoveTo(key: Key, to: Key, o: V, expire: int)
      requires Valid() && key != to && to !in dict
      modifies this`dict, this`index, this`expires, counts
      ensures Valid() && dict == (old(dict) - {key})[to := o]
      ensures expires == if expire != NO_EXPIRE then (old(expires) - {key})[to := expire] else old(expires) - {key}
    {
      hide InSlot, IndexOf;
      DbAdd(to, o);
      if expire != NO_EXPIRE {
        SetExpire(to, expire);
      }
      var _ := DbSyncDelete(key);
    }

    method CountKeysInSlot(slot: nat) returns (n: int)
      requires Valid() && slot < SLOTS
      ensures n == |InSlot(crc16, dict.Keys, slot)|
    {
      n := counts[slot];
    }

    /** The least index entry not below the prefix of the slot. */
    method Seek(prefix: Bytes) returns (m: Bytes)
      requires exists e :: e in index && Le(prefix, e)
      ensures m in index && Le(prefix, m) && forall e :: e in index && Le(prefix, e) ==> Le(m, e)
    {
      hide Le;
      var above := set e | e in index && Le(prefix, e);
      ghost var some :| some in index && Le(prefix, some);
      assert some in above;
      ghost var least := LeastExists(above);
      m :| m in above && forall e :: e in above ==> Le(m, e);
    }

    /** Deletes keys as long as the slot's count is not zero: exactly its keys go. */
    method DelKeysInSlot(slot: nat) returns (removed: int)
      requires Valid() && slot < SLOTS
      modifies this`dict, this`index, this`expires, counts
      ensures Valid() && removed == |InSlot(crc16, old(dict.Keys), slot)|
      ensures dict == old(dict) - InSlot(crc16, old(dict.Keys), slot)
      ensures expires == old(expires) - InSlot(crc16, old(dict.Keys), slot)
    {
      hide Indexed, Le, InSlot, IndexOf, Prefix, Slot;
      removed := 0;
      ghost var all := InSlot(crc16, dict.Keys, slot);
      ghost var done: set<Key> := {};
      while counts[slot] != 0
        invariant Valid() && done <= all && removed == |done|
        invariant dict == old(dict) - done && expires == old(expires) - done
        invariant InSlot(crc16, dict.Keys, slot) == all - done
        decreases |all - done|
      {
        FirstOfSlot(crc16, dict.Keys, slot);
        var entry := Seek(Prefix(slot));
        SeekFinds(crc16, dict.Keys, slot, entry);
        var key := entry[2..];
        SlotLess(crc16, dict.Keys, key, slot);
        OneDone(all, done, key);
        ghost var before, times := dict, expires;
        var _ := DbSyncDelete(key);
        DropsAdd(old(dict), before, done, key);
        DropsAdd(old(expires), times, done, key);
        done := done + {key};
        removed := removed + 1;
      }
      assert all - done == {};
      assert done == all;
    }
  }

  lemma DropsAdd<T>(m: map<Key, T>, n: map<Key, T>, done: set<Key>, key: Key)
    requires n == m - done
    ensures n - {key} == m - (done + {key}) && (n - {key}).Keys == n.Keys - {key}
  {
  }

  lemma SlotLess(crc16: Bytes -> nat, keys: set<Key>, key: Key, slot: nat)
    ensures InSlot(crc16, keys - {key}, slot) == InSlot(crc16, keys, slot) - {key}
  {
  }

  lemma OneDone(all: set<Key>, done: set<Key>, key: Key)
    requires done <= all && key in all - done
    ensures done + {key} <= all && |done + {key}| == |done| + 1
    ensures all - (done + {key}) == (all - done) - {key} && |all - (done + {key})| < |all - done|
  {
    assert all - (done + {key}) == (all - done) - {key};
  }
}
