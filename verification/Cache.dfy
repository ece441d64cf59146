/** The query-result cache: LRU order, TTL, an entry bound, a byte budget and counters,
    kept in step by several methods.  Time is a parameter of each call. */
module Cache {
  import opened Base

  type Key = nat

  datatype Entry<+V> = Entry(value: V, created: nat, ttl: nat, bytes: nat)

  /** `created.elapsed() > ttl` */
  predicate Expired<V>(e: Entry<V>, now: nat) {
    (if now >= e.created then now - e.created else 0) > e.ttl
  }

  datatype State<V> = State(
    entries: map<Key, Entry<V>>,
    lru: seq<Key>,
    maxEntries: nat,
    maxBytes: nat,
    totalBytes: nat,
    hits: nat,
    misses: nat,
    evictions: nat)

  function SaturatingSub(a: nat, b: nat): nat { if a >= b then a - b else 0 }

  function Other(key: Key): Key -> bool { k => k != key }

  function Live<V>(entries: map<Key, Entry<V>>): Key -> bool { k => k in entries }

  /** The bytes of the listed entries. */
  function Bytes<V>(entries: map<Key, Entry<V>>, keys: seq<Key>): nat {
    if keys == [] then 0
    else
      var last := keys[|keys| - 1];
      Bytes(entries, keys[..|keys| - 1]) + if last in entries then entries[last].bytes else 0
  }

  /** The cache invariant: the recency list is a duplicate-free listing of exactly the
      stored keys, the byte count is exact, and the entry bound holds. */
  ghost predicate Valid<V>(s: State<V>) {
    && NoDuplicates(s.lru)
    && Elements(s.lru) == s.entries.Keys
    && s.totalBytes == Bytes(s.entries, s.lru)
    && |s.lru| <= s.maxEntries
    && 1 <= s.maxEntries && 1 <= s.maxBytes
  }

  function Empty<V>(maxEntries: nat, maxBytes: nat): State<V> {
    State(map[], [], Max(maxEntries, 1), Max(maxBytes, 1), 0, 0, 0, 0)
  }

  // ---- What each operation does ---------------------------------------------

  function Removed<V>(s: State<V>, key: Key): State<V>
    requires key in s.entries
  {
    s.(entries := s.entries - {key}, lru := Filter(Other(key), s.lru),
       totalBytes := SaturatingSub(s.totalBytes, s.entries[key].bytes))
  }

  function Get<V>(s: State<V>, key: Key, now: nat): (State<V>, Option<V>) {
    if key in s.entries && !Expired(s.entries[key], now) then
      (s.(hits := s.hits + 1, lru := Filter(Other(key), s.lru) + [key]), Some(s.entries[key].value))
    else if key in s.entries then
      (Removed(s, key).(evictions := s.evictions + 1, misses := s.misses + 1), None)
    else (s.(misses := s.misses + 1), None)
  }

  /** One eviction, as far as it goes: a key without an entry is popped all the same. */
  function EvictOne<V>(s: State<V>): (State<V>, bool) {
    if s.lru == [] then (s, false)
    else if s.lru[0] !in s.entries then (s.(lru := s.lru[1..]), false)
    else
      (s.(entries := s.entries - {s.lru[0]}, lru := s.lru[1..],
          totalBytes := SaturatingSub(s.totalBytes, s.entries[s.lru[0]].bytes), evictions := s.evictions + 1), true)
  }

  /** The loop that evicts for the entry count. */
  function CountLoop<V>(s: State<V>): State<V>
    decreases |s.lru|
  {
    if |s.entries| < s.maxEntries then s
    else
      var (t, evicted) := EvictOne(s);
      if evicted then CountLoop(t) else t
  }

  /** The loop that evicts for the byte budget. */
  function BytesLoop<V>(s: State<V>, newBytes: nat): State<V>
    decreases |s.lru|
  {
    if s.totalBytes + newBytes <= s.maxBytes || |s.entries| == 0 then s
    else
      var (t, evicted) := EvictOne(s);
      if evicted then BytesLoop(t, newBytes) else t
  }

  /** Without its `k` least recently used entries. */
  function Dropped<V>(s: State<V>, k: nat): State<V>
    requires k <= |s.lru|
  {
    s.(entries := s.entries - Elements(s.lru[..k]), lru := s.lru[k..],
       totalBytes := Bytes(s.entries, s.lru[k..]), evictions := s.evictions + k)
  }

  /** Room for a new entry once the `k` oldest are gone. */
  predicate Fits<V>(s: State<V>, k: nat, newBytes: nat)
    requires k <= |s.lru|
  {
    |s.lru| - k < s.maxEntries && (k == |s.lru| || Bytes(s.entries, s.lru[k..]) + newBytes <= s.maxBytes)
  }

  /** The least number of evictions, from `k` on, that makes room. */
  function EvictCount<V>(s: State<V>, k: nat, newBytes: nat): (n: nat)
    requires k <= |s.lru|
    ensures k <= n <= |s.lru|
    decreases |s.lru| - k
  {
    if k == |s.lru| || Fits(s, k, newBytes) then k else EvictCount(s, k + 1, newBytes)
  }

  lemma {:induction false} EvictCountLeast<V>(s: State<V>, k: nat, newBytes: nat)
    requires k <= |s.lru| && s.maxEntries >= 1
    ensures k <= EvictCount(s, k, newBytes) <= |s.lru| && Fits(s, EvictCount(s, k, newBytes), newBytes)
    ensures forall j :: k <= j < EvictCount(s, k, newBytes) ==> !Fits(s, j, newBytes)
    decreases |s.lru| - k
  {
    if k < |s.lru| && !Fits(s, k, newBytes) {
      EvictCountLeast(s, k + 1, newBytes);
    }
  }

  function MakeRoom<V>(s: State<V>, key: Key, newBytes: nat): State<V>
    requires s.maxEntries >= 1
  {
    if key in s.entries then Removed(s, key) else Dropped(s, EvictCount(s, 0, newBytes))
  }

  function Put<V>(s: State<V>, key: Key, value: V, ttl: nat, newBytes: nat, now: nat): State<V>
    requires s.maxEntries >= 1
  {
    var room := MakeRoom(s, key, newBytes);
    room.(entries := room.entries[key := Entry(value, now, ttl, newBytes)],
          lru := Filter(Other(key), room.lru) + [key], totalBytes := room.totalBytes + newBytes)
  }

  function Unexpired<V>(entries: map<Key, Entry<V>>, now: nat): map<Key, Entry<V>> {
    map k | k in entries && !Expired(entries[k], now) :: entries[k]
  }

  function EvictExpired<V>(s: State<V>, now: nat): State<V> {
    var entries := Unexpired(s.entries, now);
    var lru := Filter(Live(entries), s.lru);
    s.(entries := entries, lru := lru, totalBytes := Bytes(entries, lru),
       evictions := s.evictions + |s.lru| - |lru|)
  }

  function Clear<V>(s: State<V>): State<V> { s.(entries := map[], lru := [], totalBytes := 0) }

  // ---- Bytes and recency ----------------------------------------------------

  lemma {:induction false} BytesAppend<V>(entries: map<Key, Entry<V>>, a: seq<Key>, b: seq<Key>)
    ensures Bytes(entries, a + b) == Bytes(entries, a) + Bytes(entries, b)
  {
    if b == [] {
      assert a + b == a;
    } else {
      BytesAppend(entries, a, b[..|b| - 1]);
      assert (a + b)[..|a + b| - 1] == a + b[..|b| - 1];
    }
  }

  lemma {:induction false} BytesAgree<V>(e: map<Key, Entry<V>>, f: map<Key, Entry<V>>, keys: seq<Key>)
    requires forall i :: 0 <= i < |keys| ==> keys[i] in e && keys[i] in f && e[keys[i]] == f[keys[i]]
    ensures Bytes(e, keys) == Bytes(f, keys)
  {
    if keys != [] { BytesAgree(e, f, keys[..|keys| - 1]); }
  }

  lemma {:induction false} BytesWithout<V>(entries: map<Key, Entry<V>>, keys: seq<Key>, key: Key)
    requires NoDuplicates(keys) && key in keys && key in entries
    ensures Bytes(entries, keys) == Bytes(entries, Filter(Other(key), keys)) + entries[key].bytes
  {
    var front, last := keys[..|keys| - 1], keys[|keys| - 1];
    if last == key {
      FilterNothing(front, key);
    } else {
      assert keys == front + [last];
      BytesWithout(entries, front, key);
      var kept := Filter(Other(key), front);
      assert (kept + [last])[..|kept|] == kept;
    }
  }

  lemma {:induction false} FilterNothing(keys: seq<Key>, key: Key)
    requires key !in keys
    ensures Filter(Other(key), keys) == keys
  {
    if keys != [] {
      FilterNothing(keys[..|keys| - 1], key);
      assert keys == keys[..|keys| - 1] + [keys[|keys| - 1]];
    }
  }

  lemma FilterElements(p: Key -> bool, keys: seq<Key>)
    ensures forall k :: k in Filter(p, keys) <==> k in keys && p(k)
  {
    forall k ensures k in Filter(p, keys) <==> k in keys && p(k) { FilterMember(p, keys, k); }
  }

  lemma {:induction false} FilterLength(keys: seq<Key>, key: Key)
    requires NoDuplicates(keys) && key in keys
    ensures |Filter(Other(key), keys)| == |keys| - 1
  {
    var front, last := keys[..|keys| - 1], keys[|keys| - 1];
    if last == key {
      FilterNothing(front, key);
    } else {
      assert keys == front + [last];
      FilterLength(front, key);
    }
  }

  // ---- Every operation keeps the invariant ----------------------------------

  /** Removing an entry is exact: the byte subtraction never saturates. */
  lemma RemovedValid<V>(s: State<V>, key: Key)
    requires Valid(s) && key in s.entries
    ensures Valid(Removed(s, key)) && s.totalBytes >= s.entries[key].bytes
    ensures |Removed(s, key).lru| == |s.lru| - 1
  {
    var t := Removed(s, key);
    assert key in Elements(s.lru);
    BytesWithout(s.entries, s.lru, key);
    FilterDistinct(Other(key), s.lru);
    FilterElements(Other(key), s.lru);
    FilterLength(s.lru, key);
    BytesAgree(s.entries, t.entries, t.lru);
  }

  lemma GetValid<V>(s: State<V>, key: Key, now: nat)
    requires Valid(s)
    ensures Valid(Get(s, key, now).0)
  {
    if key in s.entries {
      if Expired(s.entries[key], now) {
        RemovedValid(s, key);
      } else {
        TouchValid(s, key);
      }
    }
  }

  lemma TouchValid<V>(s: State<V>, key: Key)
    requires Valid(s) && key in s.entries
    ensures Valid(s.(lru := Filter(Other(key), s.lru) + [key]))
  {
    var rest := Filter(Other(key), s.lru);
    assert key in Elements(s.lru);
    FilterDistinct(Other(key), s.lru);
    FilterElements(Other(key), s.lru);
    FilterLength(s.lru, key);
    BytesWithout(s.entries, s.lru, key);
    assert (rest + [key])[..|rest|] == rest;
  }

  lemma DroppedValid<V>(s: State<V>, k: nat)
    requires Valid(s) && k <= |s.lru|
    ensures Valid(Dropped(s, k))
    ensures s.totalBytes == Bytes(s.entries, s.lru[..k]) + Dropped(s, k).totalBytes
  {
    var front, back := s.lru[..k], s.lru[k..];
    assert s.lru == front + back;
    BytesAppend(s.entries, front, back);
    SplitDistinct(s.lru, front, back);
    BytesOfSome(s.entries, Elements(front), back);
  }

  /** The back of a duplicate-free list holds exactly what its front does not. */
  lemma SplitDistinct<T>(s: seq<T>, front: seq<T>, back: seq<T>)
    requires s == front + back && NoDuplicates(s)
    ensures NoDuplicates(back) && Elements(back) == Elements(s) - Elements(front)
  {
    forall i, j | 0 <= i < j < |back| ensures back[i] != back[j] {
      assert s[|front| + i] == back[i] && s[|front| + j] == back[j];
    }
    forall i, j | 0 <= i < |front| && 0 <= j < |back| ensures front[i] != back[j] {
      assert s[i] == front[i] && s[|front| + j] == back[j];
    }
    assert forall x :: x in back ==> x in s && x !in front;
  }

  /** Entries that go do not change the bytes of the others. */
  lemma {:induction false} BytesOfSome<V>(entries: map<Key, Entry<V>>, gone: set<Key>, keys: seq<Key>)
    requires Elements(keys) !! gone
    ensures Bytes(entries - gone, keys) == Bytes(entries, keys)
  {
    if keys != [] {
      var n := |keys| - 1;
      assert keys[n] in Elements(keys);
      assert Elements(keys[..n]) <= Elements(keys);
      BytesOfSome(entries, gone, keys[..n]);
    }
  }

  lemma PutValid<V>(s: State<V>, key: Key, value: V, ttl: nat, newBytes: nat, now: nat)
    requires Valid(s)
    ensures Valid(Put(s, key, value, ttl, newBytes, now))
  {
    MakeRoomValid(s, key, newBytes);
    InsertValid(MakeRoom(s, key, newBytes), key, Entry(value, now, ttl, newBytes));
  }

  lemma MakeRoomValid<V>(s: State<V>, key: Key, newBytes: nat)
    requires Valid(s)
    ensures
      var room := MakeRoom(s, key, newBytes);
      Valid(room) && key !in room.entries && |room.lru| < room.maxEntries
  {
    if key in s.entries {
      RemovedRoom(s, key);
    } else {
      var k := EvictCount(s, 0, newBytes);
      EvictCountLeast(s, 0, newBytes);
      DroppedValid(s, k);
      assert |s.lru| - k < s.maxEntries;
    }
  }

  lemma RemovedRoom<V>(s: State<V>, key: Key)
    requires Valid(s) && key in s.entries
    ensures Valid(Removed(s, key)) && |Removed(s, key).lru| < s.maxEntries
  {
    RemovedValid(s, key);
    assert key in Elements(s.lru);
    FilterLength(s.lru, key);
  }

  lemma InsertValid<V>(s: State<V>, key: Key, e: Entry<V>)
    requires Valid(s) && key !in s.entries && |s.lru| < s.maxEntries
    ensures Filter(Other(key), s.lru) == s.lru
    ensures Valid(s.(entries := s.entries[key := e], lru := s.lru + [key], totalBytes := s.totalBytes + e.bytes))
  {
    assert key !in Elements(s.lru);
    FilterNothing(s.lru, key);
    BytesOfMore(s.entries, key, e, s.lru);
    AppendDistinct(s.lru, key);
  }

  lemma AppendDistinct<T>(s: seq<T>, x: T)
    requires NoDuplicates(s) && x !in s
    ensures NoDuplicates(s + [x]) && Elements(s + [x]) == Elements(s) + {x}
  {}

  /** A new entry adds its own bytes. */
  lemma BytesOfMore<V>(entries: map<Key, Entry<V>>, key: Key, e: Entry<V>, keys: seq<Key>)
    requires key !in keys
    ensures Bytes(entries[key := e], keys + [key]) == Bytes(entries, keys) + e.bytes
  {
    assert (keys + [key])[..|keys|] == keys;
    BytesUpdated(entries, key, e, keys);
  }

  lemma {:induction false} BytesUpdated<V>(entries: map<Key, Entry<V>>, key: Key, e: Entry<V>, keys: seq<Key>)
    requires key !in keys
    ensures Bytes(entries[key := e], keys) == Bytes(entries, keys)
  {
    if keys != [] { BytesUpdated(entries, key, e, keys[..|keys| - 1]); }
  }

  lemma EvictExpiredValid<V>(s: State<V>, now: nat)
    requires Valid(s)
    ensures Valid(EvictExpired(s, now))
  {
    var t := EvictExpired(s, now);
    FilterDistinct(Live(t.entries), s.lru);
    FilterElements(Live(t.entries), s.lru);
    assert forall x :: x in t.entries ==> x in Elements(s.lru);
  }
}
