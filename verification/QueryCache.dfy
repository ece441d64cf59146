/** The cache as the code keeps it: fields updated in place, eviction by loops. */
module QueryCache {
  import opened Base
  import opened Cache

  class QueryCache<V> {
    var entries: map<Key, Entry<V>>
    var lru: seq<Key>
    const maxEntries: nat
    const maxBytes: nat
    var totalBytes: nat
    var hits: nat
    var misses: nat
    var evictions: nat

    ghost function View(): State<V>
      reads this
    {
      State(entries, lru, maxEntries, maxBytes, totalBytes, hits, misses, evictions)
    }

    constructor (maxEntries: nat, maxBytes: nat)
      ensures View() == Empty(maxEntries, maxBytes) && Valid(View())
    {
      entries, lru := map[], [];
      this.maxEntries, this.maxBytes := Max(maxEntries, 1), Max(maxBytes, 1);
      totalBytes, hits, misses, evictions := 0, 0, 0, 0;
    }

    method TouchKey(key: Key)
      modifies this`lru
      ensures lru == Filter(Other(key), old(lru)) + [key]
    {
      lru := Filter(Other(key), lru);
      lru := lru + [key];
    }

    method EvictOneLru() returns (evicted: bool)
      modifies this
      ensures (View(), evicted) == EvictOne(old(View()))
    {
      if lru != [] {
        var oldest := lru[0];
        lru := lru[1..];
        if oldest in entries {
          totalBytes := SaturatingSub(totalBytes, entries[oldest].bytes);
          entries := entries - {oldest};
          evictions := evictions + 1;
          return true;
        }
      }
      return false;
    }

    /** Evicts the shortest prefix of the recency order that makes room. */
    method EvictUntilFits(newBytes: nat)
      requires Valid(View())
      modifies this
      ensures View() == Dropped(old(View()), EvictCount(old(View()), 0, newBytes))
    {
      LoopsDropLeast(View(), newBytes);
      EvictForCount();
      EvictForBytes(newBytes);
    }

    method EvictForCount()
      modifies this
      ensures View() == CountLoop(old(View()))
    {
      while |entries| >= maxEntries
        invariant CountLoop(View()) == CountLoop(old(View()))
        decreases |lru|
      {
        var evicted := EvictOneLru();
        if !evicted {
          break;
        }
      }
    }

    method EvictForBytes(newBytes: nat)
      modifies this
      ensures View() == BytesLoop(old(View()), newBytes)
    {
      while totalBytes + newBytes > maxBytes && |entries| != 0
        invariant BytesLoop(View(), newBytes) == BytesLoop(old(View()), newBytes)
        decreases |lru|
      {
        var evicted := EvictOneLru();
        if !evicted {
          break;
        }
      }
    }

    method GetEntry(key: Key, now: nat) returns (r: Option<V>)
      requires Valid(View())
      modifies this
      ensures (View(), r) == Get(old(View()), key, now) && Valid(View())
    {
      GetValid(View(), key, now);
      if key in entries && !Expired(entries[key], now) {
        r := Some(entries[key].value);
        hits := hits + 1;
        TouchKey(key);
      } else if key in entries {
        var removed := entries[key];
        entries := entries - {key};
        totalBytes := SaturatingSub(totalBytes, removed.bytes);
        lru := Filter(Other(key), lru);
        evictions := evictions + 1;
        misses := misses + 1;
        r := None;
      } else {
        misses := misses + 1;
        r := None;
      }
    }

    method PutEntry(key: Key, value: V, ttl: nat, newBytes: nat, now: nat)
      requires Valid(View())
      modifies this
      ensures View() == Put(old(View()), key, value, ttl, newBytes, now) && Valid(View())
    {
      ghost var s := View();
      PutValid(s, key, value, ttl, newBytes, now);
      if key in entries {
        TakeOut(key);
      } else {
        EvictUntilFits(newBytes);
      }
      PutIs(s, View(), key, value, ttl, newBytes, now);
      Store(key, Entry(value, now, ttl, newBytes));
    }

    /** The old entry goes, but not yet its place in the recency list. */
    method TakeOut(key: Key)
      requires key in entries
      modifies this`entries, this`totalBytes
      ensures View() == TakenOut(old(View()), key)
    {
      totalBytes := SaturatingSub(totalBytes, entries[key].bytes);
      entries := entries - {key};
    }

    method Store(key: Key, entry: Entry<V>)
      modifies this`entries, this`totalBytes, this`lru
      ensures View() == Stored(old(View()), key, entry)
    {
      totalBytes := totalBytes + entry.bytes;
      entries := entries[key := entry];
      TouchKey(key);
    }

    /** Expired entries leave one by one, in whatever order the map lists them. */
    method EvictAllExpired(now: nat) returns (removed: nat)
      requires Valid(View())
      modifies this
      ensures View() == EvictExpired(old(View()), now) && Valid(View())
      ensures removed == |old(lru)| - |lru|
    {
      ghost var s := View();
      EvictExpiredValid(s, now);
      ExpiredGone(s, now);
      ExpiredStored(entries, now);
      var before := |entries|;
      var expired := ExpiredKeys(entries, now);
      RemoveAll(expired);
      removed := before - |entries|;
      TrimLru(removed);
    }

    method TrimLru(removed: nat)
      modifies this`lru, this`evictions
      ensures View() == Trimmed(old(View()), removed)
    {
      lru := Filter(Live(entries), lru);
      evictions := evictions + removed;
    }

    method RemoveAll(expired: set<Key>)
      requires Valid(View()) && expired <= entries.Keys
      modifies this`entries, this`totalBytes
      ensures View() == RemovedAll(old(View()), expired)
    {
      ghost var s := View();
      var pending := expired;
      NothingRemoved(s, expired);
      while pending != {}
        invariant pending <= expired && Removing(s, expired - pending, entries, totalBytes)
        decreases pending
      {
        var k :| k in pending;
        RemoveStep(s, expired, pending, k, entries, totalBytes);
        totalBytes := SaturatingSub(totalBytes, entries[k].bytes);
        entries := entries - {k};
        pending := pending - {k};
      }
      assert expired - pending == expired;
    }

    method ClearAll()
      requires Valid(View())
      modifies this
      ensures View() == Clear(old(View())) && Valid(View())
    {
      entries := map[];
      lru := [];
      totalBytes := 0;
    }
  }

  lemma BytesOne<V>(entries: map<Key, Entry<V>>, key: Key)
    requires key in entries
    ensures Bytes(entries, [key]) == entries[key].bytes
  {
    assert [key][..0] == [];
  }

  function NotIn(gone: set<Key>): Key -> bool { k => k !in gone }

  lemma MinusNothing<V>(m: map<Key, V>)
    ensures m - {} == m
  {}

  lemma MinusOneMore<V>(m: map<Key, V>, gone: set<Key>, k: Key)
    requires k in m && k !in gone
    ensures k in m - gone && (m - gone)[k] == m[k] && (m - gone) - {k} == m - (gone + {k})
  {}

  lemma {:induction false} FilterAllKept(keys: seq<Key>)
    ensures Filter(NotIn({}), keys) == keys
  {
    if keys != [] {
      FilterAllKept(keys[..|keys| - 1]);
      assert keys == keys[..|keys| - 1] + [keys[|keys| - 1]];
    }
  }

  lemma {:induction false} FilterMoreGone(gone: set<Key>, k: Key, keys: seq<Key>)
    ensures Filter(NotIn(gone + {k}), keys) == Filter(Other(k), Filter(NotIn(gone), keys))
  {
    if keys != [] {
      var front, last := keys[..|keys| - 1], keys[|keys| - 1];
      FilterMoreGone(gone, k, front);
      var kept := Filter(NotIn(gone), front);
      assert (kept + [last])[..|kept|] == kept;
    }
  }

  lemma OneMoreGone<V>(s: State<V>, gone: set<Key>, k: Key)
    requires Valid(s) && k in s.entries && k !in gone
    ensures
      Bytes(s.entries, Filter(NotIn(gone), s.lru)) ==
      Bytes(s.entries, Filter(NotIn(gone + {k}), s.lru)) + s.entries[k].bytes
  {
    var kept := Filter(NotIn(gone), s.lru);
    assert k in Elements(s.lru);
    FilterMember(NotIn(gone), s.lru, k);
    FilterDistinct(NotIn(gone), s.lru);
    BytesWithout(s.entries, kept, k);
    FilterMoreGone(gone, k, s.lru);
  }

  /** The state of the removal loop once the keys in `gone` are gone. */
  ghost predicate Removing<V>(s: State<V>, gone: set<Key>, entries: map<Key, Entry<V>>, totalBytes: nat) {
    entries == s.entries - gone && totalBytes == Bytes(s.entries, Filter(NotIn(gone), s.lru))
  }

  lemma NothingRemoved<V>(s: State<V>, expired: set<Key>)
    requires Valid(s)
    ensures Removing(s, expired - expired, s.entries, s.totalBytes)
  {
    assert expired - expired == {};
    FilterAllKept(s.lru);
    MinusNothing(s.entries);
  }

  lemma RemoveStep<V>(s: State<V>, expired: set<Key>, pending: set<Key>, k: Key, entries: map<Key, Entry<V>>,
                      totalBytes: nat)
    requires Valid(s) && pending <= expired <= s.entries.Keys && k in pending
    requires Removing(s, expired - pending, entries, totalBytes)
    ensures k in entries
    ensures Removing(s, expired - (pending - {k}), entries - {k}, SaturatingSub(totalBytes, entries[k].bytes))
  {
    var gone := expired - pending;
    assert expired - (pending - {k}) == gone + {k};
    OneMoreGone(s, gone, k);
    MinusOneMore(s.entries, gone, k);
  }

  function ExpiredKeys<V>(entries: map<Key, Entry<V>>, now: nat): set<Key> {
    set k | k in entries && Expired(entries[k], now)
  }

  lemma ExpiredStored<V>(entries: map<Key, Entry<V>>, now: nat)
    ensures ExpiredKeys(entries, now) <= entries.Keys
  {}

  lemma UnexpiredIsRest<V>(entries: map<Key, Entry<V>>, now: nat)
    ensures entries - ExpiredKeys(entries, now) == Unexpired(entries, now)
  {}

  /** Not expired is the same as still stored, for the keys of the recency list. */
  lemma LiveFilter<V>(s: State<V>, now: nat)
    requires Valid(s)
    ensures Filter(NotIn(ExpiredKeys(s.entries, now)), s.lru) == Filter(Live(Unexpired(s.entries, now)), s.lru)
  {
    var expired, left := ExpiredKeys(s.entries, now), Unexpired(s.entries, now);
    forall i | 0 <= i < |s.lru| ensures NotIn(expired)(s.lru[i]) == Live(left)(s.lru[i]) {
      assert s.lru[i] in Elements(s.lru);
    }
    SameFilter(NotIn(expired), Live(left), s.lru);
  }

  lemma LiveBytes<V>(s: State<V>, now: nat)
    requires Valid(s)
    ensures
      var lru := Filter(Live(Unexpired(s.entries, now)), s.lru);
      Bytes(Unexpired(s.entries, now), lru) == Bytes(s.entries, lru)
  {
    var expired, left := ExpiredKeys(s.entries, now), Unexpired(s.entries, now);
    UnexpiredIsRest(s.entries, now);
    FilterElements(Live(left), s.lru);
    BytesOfSome(s.entries, expired, Filter(Live(left), s.lru));
  }

  /** What is left after the expired entries went one by one. */
  lemma ExpiredGone<V>(s: State<V>, now: nat)
    requires Valid(s)
    ensures
      var gone := RemovedAll(s, ExpiredKeys(s.entries, now));
      && |gone.entries| <= |s.entries|
      && EvictExpired(s, now) == Trimmed(gone, |s.entries| - |gone.entries|)
      && |s.entries| - |gone.entries| == |s.lru| - |EvictExpired(s, now).lru|
  {
    UnexpiredIsRest(s.entries, now);
    EvictExpiredValid(s, now);
    SizeOfLru(s);
    SizeOfLru(EvictExpired(s, now));
    LiveFilter(s, now);
    LiveBytes(s, now);
  }

  lemma DroppedNone<V>(s: State<V>)
    requires Valid(s)
    ensures Dropped(s, 0) == s
  {
    assert s.lru[0..] == s.lru && s.entries - Elements(s.lru[..0]) == s.entries;
  }

  /** A valid cache counts as many entries as its recency list is long. */
  lemma SizeOfLru<V>(s: State<V>)
    requires Valid(s)
    ensures |s.entries| == |s.lru|
  {
    DistinctSize(s.lru);
    assert |s.entries| == |s.entries.Keys|;
  }

  lemma DroppedSize<V>(s: State<V>, k: nat)
    requires Valid(s) && k <= |s.lru|
    ensures |Dropped(s, k).entries| == |s.lru| - k
  {
    DroppedValid(s, k);
    SizeOfLru(Dropped(s, k));
  }

  lemma NextOldest<V>(entries: map<Key, Entry<V>>, keys: seq<Key>, k: nat)
    requires NoDuplicates(keys) && k < |keys| && keys[k] in entries
    ensures keys[k] !in Elements(keys[..k]) && Elements(keys[..k + 1]) == Elements(keys[..k]) + {keys[k]}
    ensures keys[k..][1..] == keys[k + 1..]
    ensures Bytes(entries, keys[k..]) == entries[keys[k]].bytes + Bytes(entries, keys[k + 1..])
  {
    assert keys[..k + 1] == keys[..k] + [keys[k]];
    assert keys[k..] == [keys[k]] + keys[k + 1..];
    BytesAppend(entries, [keys[k]], keys[k + 1..]);
    BytesOne(entries, keys[k]);
  }

  lemma KeyStored<V>(s: State<V>, k: nat)
    requires Valid(s) && k < |s.lru|
    ensures s.lru[k] in s.entries && NoDuplicates(s.lru)
  {
    assert s.lru[k] in Elements(s.lru);
  }

  /** The next oldest key is stored, and evicting it is exact. */
  lemma DroppedMore<V>(s: State<V>, k: nat)
    requires k < |s.lru| && NoDuplicates(s.lru) && s.lru[k] in s.entries
    ensures EvictOne(Dropped(s, k)) == (Dropped(s, k + 1), true)
  {
    NextOldest(s.entries, s.lru, k);
    var gone, oldest := Elements(s.lru[..k]), s.lru[k];
    assert (s.entries - gone) - {oldest} == s.entries - (gone + {oldest});
  }

  /** One turn of either loop drops the next oldest entry. */
  lemma DropOne<V>(s: State<V>, k: nat)
    requires Valid(s) && k < |s.lru|
    ensures EvictOne(Dropped(s, k)) == (Dropped(s, k + 1), true)
  {
    KeyStored(s, k);
    DroppedMore(s, k);
  }

  lemma BytesTurn<V>(s: State<V>, k: nat, newBytes: nat)
    requires Valid(s) && k < |s.lru| && Bytes(s.entries, s.lru[k..]) + newBytes > s.maxBytes
    ensures BytesLoop(Dropped(s, k), newBytes) == BytesLoop(Dropped(s, k + 1), newBytes)
  {
    DropOne(s, k);
    DroppedSize(s, k);
  }

  lemma BytesDone<V>(s: State<V>, k: nat, newBytes: nat)
    requires Valid(s) && k <= |s.lru| && (k == |s.lru| || Bytes(s.entries, s.lru[k..]) + newBytes <= s.maxBytes)
    ensures BytesLoop(Dropped(s, k), newBytes) == Dropped(s, k)
  {
    DroppedSize(s, k);
  }

  /** While the bytes do not fit, the loop goes on. */
  lemma {:induction false} BytesTurns<V>(s: State<V>, k: nat, j: nat, newBytes: nat)
    requires Valid(s) && k <= j <= |s.lru|
    requires forall i :: k <= i < j ==> Bytes(s.entries, s.lru[i..]) + newBytes > s.maxBytes
    ensures BytesLoop(Dropped(s, k), newBytes) == BytesLoop(Dropped(s, j), newBytes)
    decreases j - k
  {
    if k < j {
      BytesTurn(s, k, newBytes);
      BytesTurns(s, k + 1, j, newBytes);
    }
  }

  lemma BytesLoopDrops<V>(s: State<V>, k: nat, newBytes: nat)
    requires Valid(s) && k <= |s.lru| && |s.lru| - k < s.maxEntries
    ensures BytesLoop(Dropped(s, k), newBytes) == Dropped(s, EvictCount(s, k, newBytes))
  {
    var j := EvictCount(s, k, newBytes);
    EvictCountLeast(s, k, newBytes);
    forall i | k <= i < j ensures Bytes(s.entries, s.lru[i..]) + newBytes > s.maxBytes {
      assert !Fits(s, i, newBytes);
    }
    BytesTurns(s, k, j, newBytes);
    BytesDone(s, j, newBytes);
  }

  lemma EvictCountSkips<V>(s: State<V>, k: nat, newBytes: nat)
    requires k < |s.lru| && !Fits(s, k, newBytes)
    ensures EvictCount(s, k, newBytes) == EvictCount(s, k + 1, newBytes)
  {}

  lemma CountTurn<V>(s: State<V>, k: nat)
    requires Valid(s) && k < |s.lru| && |s.lru| - k >= s.maxEntries
    ensures CountLoop(Dropped(s, k)) == CountLoop(Dropped(s, k + 1))
  {
    DropOne(s, k);
    DroppedSize(s, k);
  }

  lemma CountDone<V>(s: State<V>, k: nat)
    requires Valid(s) && k <= |s.lru| && |s.lru| - k < s.maxEntries
    ensures CountLoop(Dropped(s, k)) == Dropped(s, k)
  {
    DroppedSize(s, k);
  }

  lemma {:induction false} CountLoopDrops<V>(s: State<V>, k: nat, newBytes: nat)
    requires Valid(s) && k <= |s.lru|
    ensures BytesLoop(CountLoop(Dropped(s, k)), newBytes) == Dropped(s, EvictCount(s, k, newBytes))
    decreases |s.lru| - k
  {
    if |s.lru| - k < s.maxEntries {
      CountDone(s, k);
      BytesLoopDrops(s, k, newBytes);
    } else {
      CountTurn(s, k);
      CountLoopDrops(s, k + 1, newBytes);
      EvictCountSkips(s, k, newBytes);
    }
  }

  /** On a valid cache the two loops together drop the least prefix that makes room. */
  lemma LoopsDropLeast<V>(s: State<V>, newBytes: nat)
    requires Valid(s)
    ensures BytesLoop(CountLoop(s), newBytes) == Dropped(s, EvictCount(s, 0, newBytes))
  {
    DroppedNone(s);
    CountLoopDrops(s, 0, newBytes);
  }

  function TakenOut<V>(s: State<V>, key: Key): State<V>
    requires key in s.entries
  {
    s.(entries := s.entries - {key}, totalBytes := SaturatingSub(s.totalBytes, s.entries[key].bytes))
  }

  function Stored<V>(s: State<V>, key: Key, entry: Entry<V>): State<V> {
    s.(entries := s.entries[key := entry], lru := Filter(Other(key), s.lru) + [key],
       totalBytes := s.totalBytes + entry.bytes)
  }

  function RemovedAll<V>(s: State<V>, expired: set<Key>): State<V> {
    s.(entries := s.entries - expired, totalBytes := Bytes(s.entries, Filter(NotIn(expired), s.lru)))
  }

  function Trimmed<V>(s: State<V>, removed: nat): State<V> {
    s.(lru := Filter(Live(s.entries), s.lru), evictions := s.evictions + removed)
  }

  /** A put makes room and stores; the key leaves the recency list once, not twice. */
  lemma PutIs<V>(s: State<V>, room: State<V>, key: Key, value: V, ttl: nat, newBytes: nat, now: nat)
    requires s.maxEntries >= 1
    requires room == if key in s.entries then TakenOut(s, key) else Dropped(s, EvictCount(s, 0, newBytes))
    ensures Put(s, key, value, ttl, newBytes, now) == Stored(room, key, Entry(value, now, ttl, newBytes))
  {
    FilterTwice(s.lru, key);
  }

  lemma FilterTwice(keys: seq<Key>, key: Key)
    ensures Filter(Other(key), Filter(Other(key), keys)) == Filter(Other(key), keys)
  {
    FilterMember(Other(key), keys, key);
    FilterNothing(Filter(Other(key), keys), key);
  }
}
