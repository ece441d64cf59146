/** The cache over whole runs: it agrees with a plain map of the puts, keeps recency order,
    and conserves its counts. */
module CacheRun {
  import opened Base
  import opened Cache
  import opened QueryCache

  datatype Op<+V> =
    | GetOp(key: Key, now: nat)
    | PutOp(key: Key, value: V, ttl: nat, bytes: nat, now: nat)
    | EvictExpiredOp(now: nat)
    | ClearOp

  function Step<V>(s: State<V>, op: Op<V>): State<V>
    requires s.maxEntries >= 1
  {
    match op
    case GetOp(key, now) => Get(s, key, now).0
    case PutOp(key, value, ttl, bytes, now) => Put(s, key, value, ttl, bytes, now)
    case EvictExpiredOp(now) => EvictExpired(s, now)
    case ClearOp => Clear(s)
  }

  function Run<V>(maxEntries: nat, maxBytes: nat, ops: seq<Op<V>>): (s: State<V>)
    ensures s.maxEntries >= 1
  {
    if ops == [] then Empty(maxEntries, maxBytes)
    else Step(Run(maxEntries, maxBytes, ops[..|ops| - 1]), ops[|ops| - 1])
  }

  // ---- What the run looks like from outside ---------------------------------

  /** The plain map: the entry of the latest put for a key. */
  function LatestPut<V>(ops: seq<Op<V>>, key: Key): Option<Entry<V>> {
    if ops == [] then None
    else
      match ops[|ops| - 1]
      case PutOp(k, value, ttl, bytes, now) =>
        if k == key then Some(Entry(value, now, ttl, bytes)) else LatestPut(ops[..|ops| - 1], key)
      case _ => LatestPut(ops[..|ops| - 1], key)
  }

  function Gets<V>(ops: seq<Op<V>>): nat {
    if ops == [] then 0 else Gets(ops[..|ops| - 1]) + if ops[|ops| - 1].GetOp? then 1 else 0
  }

  /** Puts that brought a key the cache did not hold. */
  function NewPuts<V>(maxEntries: nat, maxBytes: nat, ops: seq<Op<V>>): nat {
    if ops == [] then 0
    else
      var before, op := Run(maxEntries, maxBytes, ops[..|ops| - 1]), ops[|ops| - 1];
      NewPuts(maxEntries, maxBytes, ops[..|ops| - 1]) + if op.PutOp? && op.key !in before.entries then 1 else 0
  }

  /** Entries thrown away by clears. */
  function Cleared<V>(maxEntries: nat, maxBytes: nat, ops: seq<Op<V>>): nat {
    if ops == [] then 0
    else
      var before, op := Run(maxEntries, maxBytes, ops[..|ops| - 1]), ops[|ops| - 1];
      Cleared(maxEntries, maxBytes, ops[..|ops| - 1]) + if op.ClearOp? then |before.lru| else 0
  }

  /** Whether an operation uses a key: a put of it, or a get that hits. */
  predicate Accesses<V>(before: State<V>, op: Op<V>, key: Key) {
    match op
    case GetOp(k, now) => k == key && Get(before, k, now).1.Some?
    case PutOp(k, _, _, _, _) => k == key
    case _ => false
  }

  /** When a key was last used: one more than the index of the operation, 0 if never. */
  function LastAccess<V>(maxEntries: nat, maxBytes: nat, ops: seq<Op<V>>, key: Key): (t: nat)
    ensures t <= |ops|
  {
    if ops == [] then 0
    else if Accesses(Run(maxEntries, maxBytes, ops[..|ops| - 1]), ops[|ops| - 1], key) then |ops|
    else LastAccess(maxEntries, maxBytes, ops[..|ops| - 1], key)
  }

  // ---- The invariant over every run -----------------------------------------

  lemma StepValid<V>(s: State<V>, op: Op<V>)
    requires Valid(s)
    ensures Valid(Step(s, op))
  {
    match op
    case GetOp(key, now) => GetValid(s, key, now);
    case PutOp(key, value, ttl, bytes, now) => PutValid(s, key, value, ttl, bytes, now);
    case EvictExpiredOp(now) => EvictExpiredValid(s, now);
    case ClearOp =>
  }

  /** In every run the recency list is a duplicate-free listing of the stored keys, the byte
      count is the exact sum, and the entry bound holds. */
  lemma {:induction false} RunValid<V>(maxEntries: nat, maxBytes: nat, ops: seq<Op<V>>)
    ensures Valid(Run(maxEntries, maxBytes, ops))
  {
    if ops != [] {
      RunValid(maxEntries, maxBytes, ops[..|ops| - 1]);
      StepValid(Run(maxEntries, maxBytes, ops[..|ops| - 1]), ops[|ops| - 1]);
    }
  }

  /** Which entries a step leaves as they were: all it keeps except a key it puts. */
  lemma StepEntries<V>(s: State<V>, op: Op<V>, key: Key)
    requires s.maxEntries >= 1 && key in Step(s, op).entries
    ensures op.PutOp? && op.key == key ==>
      Step(s, op).entries[key] == Entry(op.value, op.now, op.ttl, op.bytes)
    ensures !(op.PutOp? && op.key == key) ==> key in s.entries && Step(s, op).entries[key] == s.entries[key]
  {}

  /** The cache holds nothing but latest puts. */
  lemma {:induction false} EntriesAreLatest<V>(maxEntries: nat, maxBytes: nat, ops: seq<Op<V>>, key: Key)
    requires key in Run(maxEntries, maxBytes, ops).entries
    ensures LatestPut(ops, key) == Some(Run(maxEntries, maxBytes, ops).entries[key])
  {
    if ops != [] {
      var front, op := ops[..|ops| - 1], ops[|ops| - 1];
      StepEntries(Run(maxEntries, maxBytes, front), op, key);
      if !(op.PutOp? && op.key == key) {
        EntriesAreLatest(maxEntries, maxBytes, front, key);
      }
    }
  }

  /** Every hit returns the value of the latest put for its key, not yet expired. */
  lemma HitIsLatestPut<V>(maxEntries: nat, maxBytes: nat, ops: seq<Op<V>>, key: Key, now: nat)
    requires Get(Run(maxEntries, maxBytes, ops), key, now).1.Some?
    ensures LatestPut(ops, key).Some? && !Expired(LatestPut(ops, key).value, now)
    ensures Get(Run(maxEntries, maxBytes, ops), key, now).1 == Some(LatestPut(ops, key).value.value)
  {
    EntriesAreLatest(maxEntries, maxBytes, ops, key);
  }

  /** A put is visible to the next get of its key until it expires. */
  lemma PutThenGet<V>(maxEntries: nat, maxBytes: nat, ops: seq<Op<V>>, put: Op<V>, now: nat)
    requires put.PutOp?
    ensures
      Get(Run(maxEntries, maxBytes, ops + [put]), put.key, now).1 ==
      if Expired(Entry(put.value, put.now, put.ttl, put.bytes), now) then None else Some(put.value)
  {
    assert (ops + [put])[..|ops|] == ops;
  }

  // ---- Conservation ---------------------------------------------------------

  lemma {:induction false} GetsAreCounted<V>(maxEntries: nat, maxBytes: nat, ops: seq<Op<V>>)
    ensures Run(maxEntries, maxBytes, ops).hits + Run(maxEntries, maxBytes, ops).misses == Gets(ops)
  {
    if ops != [] { GetsAreCounted(maxEntries, maxBytes, ops[..|ops| - 1]); }
  }

  /** What a step does to the number of entries and evictions. */
  lemma StepBalance<V>(s: State<V>, op: Op<V>)
    requires Valid(s)
    ensures
      |Step(s, op).lru| + Step(s, op).evictions + (if op.ClearOp? then |s.lru| else 0) ==
      |s.lru| + s.evictions + if op.PutOp? && op.key !in s.entries then 1 else 0
  {
    match op
    case GetOp(key, now) =>
      if key in s.entries {
        assert key in Elements(s.lru);
        FilterLength(s.lru, key);
      }
    case PutOp(key, _, _, bytes, _) =>
      if key in s.entries {
        RemovedValid(s, key);
        FilterTwice(s.lru, key);
      } else {
        EvictCountLeast(s, 0, bytes);
        DroppedValid(s, EvictCount(s, 0, bytes));
        assert key !in Elements(Dropped(s, EvictCount(s, 0, bytes)).lru);
        FilterNothing(Dropped(s, EvictCount(s, 0, bytes)).lru, key);
      }
    case EvictExpiredOp(_) =>
    case ClearOp =>
  }

  /** New-key puts = live entries + evictions + entries cleared. */
  lemma {:induction false} PutsAreConserved<V>(maxEntries: nat, maxBytes: nat, ops: seq<Op<V>>)
    ensures
      NewPuts(maxEntries, maxBytes, ops) ==
      |Run(maxEntries, maxBytes, ops).entries| + Run(maxEntries, maxBytes, ops).evictions +
        Cleared(maxEntries, maxBytes, ops)
  {
    RunValid(maxEntries, maxBytes, ops);
    SizeOfLru(Run(maxEntries, maxBytes, ops));
    if ops != [] {
      var front := ops[..|ops| - 1];
      PutsAreConserved(maxEntries, maxBytes, front);
      RunValid(maxEntries, maxBytes, front);
      SizeOfLru(Run(maxEntries, maxBytes, front));
      StepBalance(Run(maxEntries, maxBytes, front), ops[|ops| - 1]);
    }
  }

  // ---- Recency --------------------------------------------------------------

  ghost predicate OrderedBy(f: Key -> nat, keys: seq<Key>) {
    forall i, j :: 0 <= i < j < |keys| ==> f(keys[i]) < f(keys[j])
  }

  function AccessTime<V>(maxEntries: nat, maxBytes: nat, ops: seq<Op<V>>): Key -> nat {
    key => LastAccess(maxEntries, maxBytes, ops, key)
  }

  lemma {:induction false} OrderedFilter(f: Key -> nat, p: Key -> bool, keys: seq<Key>)
    requires OrderedBy(f, keys)
    ensures OrderedBy(f, Filter(p, keys))
  {
    if keys != [] {
      var front, last := keys[..|keys| - 1], keys[|keys| - 1];
      OrderedFilter(f, p, front);
      var kept := Filter(p, front);
      forall i | 0 <= i < |kept| ensures f(kept[i]) < f(last) {
        FilterMember(p, front, kept[i]);
      }
    }
  }

  /** Keys left alone keep their order; a key just used goes behind them all. */
  lemma OrderedAfter(f: Key -> nat, g: Key -> nat, keys: seq<Key>, used: seq<Key>, now: nat)
    requires OrderedBy(f, keys) && |used| <= 1
    requires forall i :: 0 <= i < |keys| ==> g(keys[i]) == f(keys[i]) < now
    requires used != [] ==> g(used[0]) == now
    ensures OrderedBy(g, keys + used)
  {}

  /** The part of the recency list a step carries over, and the key it puts at the end. */
  function Kept<V>(s: State<V>, op: Op<V>): seq<Key>
    requires s.maxEntries >= 1
  {
    match op
    case GetOp(key, _) => if key in s.entries then Filter(Other(key), s.lru) else s.lru
    case PutOp(key, _, _, bytes, _) => Filter(Other(key), MakeRoom(s, key, bytes).lru)
    case EvictExpiredOp(now) => EvictExpired(s, now).lru
    case ClearOp => []
  }

  function Used<V>(s: State<V>, op: Op<V>): (r: seq<Key>)
    ensures |r| <= 1
    ensures forall key: Key :: Accesses(s, op, key) <==> r == [key]
  {
    match op
    case GetOp(key, now) => if Get(s, key, now).1.Some? then [key] else []
    case PutOp(key, _, _, _, _) => [key]
    case _ => []
  }

  lemma KeptOrdered<V>(s: State<V>, op: Op<V>, f: Key -> nat)
    requires Valid(s) && OrderedBy(f, s.lru)
    ensures Step(s, op).lru == Kept(s, op) + Used(s, op) && OrderedBy(f, Kept(s, op))
    ensures forall i :: 0 <= i < |Kept(s, op)| ==> Kept(s, op)[i] in s.entries && !Accesses(s, op, Kept(s, op)[i])
  {
    match op
    case GetOp(key, now) =>
      OrderedFilter(f, Other(key), s.lru);
      FilterElements(Other(key), s.lru);
      KeptKeys(s, op);
    case PutOp(key, _, _, bytes, _) =>
      EvictCountLeast(s, 0, bytes);
      var room := MakeRoom(s, key, bytes).lru;
      OrderedFilter(f, Other(key), s.lru);
      assert OrderedBy(f, room);
      OrderedFilter(f, Other(key), room);
      KeptKeys(s, op);
    case EvictExpiredOp(now) =>
      OrderedFilter(f, Live(Unexpired(s.entries, now)), s.lru);
      KeptKeys(s, op);
    case ClearOp =>
  }

  lemma KeptKeys<V>(s: State<V>, op: Op<V>)
    requires Valid(s)
    ensures forall i :: 0 <= i < |Kept(s, op)| ==> Kept(s, op)[i] in s.entries && !Accesses(s, op, Kept(s, op)[i])
  {
    var kept := Kept(s, op);
    forall i | 0 <= i < |kept| ensures kept[i] in s.entries && !Accesses(s, op, kept[i]) {
      assert kept[i] in kept;
      match op
      case GetOp(key, _) =>
        FilterMember(Other(key), s.lru, kept[i]);
        assert kept[i] in Elements(s.lru);
      case PutOp(key, _, _, bytes, _) =>
        var room := MakeRoom(s, key, bytes).lru;
        FilterMember(Other(key), room, kept[i]);
        FilterMember(Other(key), s.lru, kept[i]);
        assert kept[i] in Elements(s.lru);
      case EvictExpiredOp(now) =>
        FilterMember(Live(Unexpired(s.entries, now)), s.lru, kept[i]);
        assert kept[i] in Elements(s.lru);
      case ClearOp =>
    }
  }

  /** In every run the recency list is in order of last use, oldest first. */
  lemma {:induction false} LruOrder<V>(maxEntries: nat, maxBytes: nat, ops: seq<Op<V>>)
    ensures OrderedBy(AccessTime(maxEntries, maxBytes, ops), Run(maxEntries, maxBytes, ops).lru)
  {
    if ops != [] {
      var front, op := ops[..|ops| - 1], ops[|ops| - 1];
      var s := Run(maxEntries, maxBytes, front);
      var f, g := AccessTime(maxEntries, maxBytes, front), AccessTime(maxEntries, maxBytes, ops);
      LruOrder(maxEntries, maxBytes, front);
      RunValid(maxEntries, maxBytes, front);
      KeptOrdered(s, op, f);
      OrderedAfter(f, g, Kept(s, op), Used(s, op), |ops|);
    }
  }

  // ---- The byte budget ------------------------------------------------------

  /** A put of a new key evicts the shortest prefix of recency order that makes room, and
      leaves the bytes within budget or the new entry alone. */
  lemma NewPutFits<V>(s: State<V>, put: Op<V>)
    requires Valid(s) && put.PutOp? && put.key !in s.entries
    ensures
      var k, t := EvictCount(s, 0, put.bytes), Step(s, put);
      && t.lru == s.lru[k..] + [put.key]
      && (forall j :: 0 <= j < k ==> !Fits(s, j, put.bytes))
      && t.evictions == s.evictions + k
      && (t.totalBytes <= t.maxBytes || t.lru == [put.key])
  {
    EvictCountLeast(s, 0, put.bytes);
    var k := EvictCount(s, 0, put.bytes);
    DroppedValid(s, k);
    assert put.key !in Elements(Dropped(s, k).lru);
    FilterNothing(Dropped(s, k).lru, put.key);
  }

  /** No put of the run replaces an entry by a larger one. */
  predicate NeverGrows<V>(maxEntries: nat, maxBytes: nat, ops: seq<Op<V>>) {
    ops == [] ||
    (NeverGrows(maxEntries, maxBytes, ops[..|ops| - 1]) &&
     var before, op := Run(maxEntries, maxBytes, ops[..|ops| - 1]), ops[|ops| - 1];
     op.PutOp? && op.key in before.entries ==> op.bytes <= before.entries[op.key].bytes)
  }

  predicate WithinBudget<V>(s: State<V>) { s.totalBytes <= s.maxBytes || |s.lru| <= 1 }

  lemma StepBudget<V>(s: State<V>, op: Op<V>)
    requires Valid(s) && WithinBudget(s)
    requires op.PutOp? && op.key in s.entries ==> op.bytes <= s.entries[op.key].bytes
    ensures WithinBudget(Step(s, op))
  {
    match op
    case GetOp(key, now) =>
      if key in s.entries {
        assert key in Elements(s.lru);
        FilterLength(s.lru, key);
      }
    case PutOp(key, _, _, bytes, _) =>
      if key in s.entries {
        RemovedValid(s, key);
        FilterTwice(s.lru, key);
      } else {
        NewPutFits(s, op);
      }
    case EvictExpiredOp(now) => UnexpiredBytes(s, now);
    case ClearOp =>
  }

  lemma UnexpiredBytes<V>(s: State<V>, now: nat)
    requires Valid(s)
    ensures EvictExpired(s, now).totalBytes <= s.totalBytes
  {
    FewerBytes(s.entries, Unexpired(s.entries, now), s.lru);
  }

  lemma {:induction false} FewerBytes<V>(e: map<Key, Entry<V>>, f: map<Key, Entry<V>>, keys: seq<Key>)
    requires forall k :: k in f ==> k in e && f[k] == e[k]
    ensures Bytes(f, Filter(Live(f), keys)) <= Bytes(e, keys)
  {
    if keys != [] {
      var front, last := keys[..|keys| - 1], keys[|keys| - 1];
      FewerBytes(e, f, front);
      var kept := Filter(Live(f), front);
      assert (kept + [last])[..|kept|] == kept;
    }
  }

  /** Such runs stay within the byte budget, but for a single oversized entry. */
  lemma {:induction false} BudgetHolds<V>(maxEntries: nat, maxBytes: nat, ops: seq<Op<V>>)
    requires NeverGrows(maxEntries, maxBytes, ops)
    ensures WithinBudget(Run(maxEntries, maxBytes, ops))
  {
    if ops != [] {
      var front, op := ops[..|ops| - 1], ops[|ops| - 1];
      BudgetHolds(maxEntries, maxBytes, front);
      RunValid(maxEntries, maxBytes, front);
      StepBudget(Run(maxEntries, maxBytes, front), op);
    }
  }

  /** A put that replaces an entry evicts nothing, so the budget holds after it exactly when
      the replacement itself fits beside the rest. */
  lemma OverwriteBudget<V>(s: State<V>, put: Op<V>)
    requires Valid(s) && put.PutOp? && put.key in s.entries
    ensures
      && Step(s, put).evictions == s.evictions && |Step(s, put).lru| == |s.lru|
      && Step(s, put).totalBytes == s.totalBytes - s.entries[put.key].bytes + put.bytes
      && (WithinBudget(Step(s, put)) <==>
          |s.lru| <= 1 || s.totalBytes - s.entries[put.key].bytes + put.bytes <= s.maxBytes)
  {
    RemovedValid(s, put.key);
    FilterTwice(s.lru, put.key);
  }

  /** A new key that fits at once. */
  lemma PutBeside<V>(s: State<V>, put: Op<V>)
    requires Valid(s) && put.PutOp? && put.key !in s.entries && Fits(s, 0, put.bytes)
    ensures
      var t := Step(s, put);
      && Valid(t) && t.lru == s.lru + [put.key] && put.key in t.entries && t.entries[put.key].bytes == put.bytes
      && t.totalBytes == s.totalBytes + put.bytes && t.maxBytes == s.maxBytes && t.maxEntries == s.maxEntries
      && forall k :: k in s.entries ==> k in t.entries && t.entries[k] == s.entries[k]
  {
    PutValid(s, put.key, put.value, put.ttl, put.bytes, put.now);
    EvictCountLeast(s, 0, put.bytes);
    assert EvictCount(s, 0, put.bytes) == 0;
    DroppedNone(s);
    InsertValid(s, put.key, Entry(put.value, put.now, put.ttl, put.bytes));
  }

  /** Two small entries, and one of them replaced by a large one. */
  function Overfill<V>(v: V, bytes: nat): seq<Op<V>> {
    [PutOp(0, v, 0, 0, 0), PutOp(1, v, 0, 0, 0), PutOp(0, v, 0, bytes, 0)]
  }

  lemma OverfillRun<V>(maxEntries: nat, maxBytes: nat, v: V, bytes: nat)
    requires maxEntries >= 2
    ensures
      var s := Run(maxEntries, maxBytes, Overfill(v, bytes));
      |s.lru| == 2 && s.totalBytes == bytes && s.maxBytes == Max(maxBytes, 1)
  {
    var small, other, large := PutOp(0, v, 0, 0, 0), PutOp(1, v, 0, 0, 0), PutOp(0, v, 0, bytes, 0);
    RunThree(maxEntries, maxBytes, small, other, large);
    TwoSmall(maxEntries, maxBytes, small, other);
    OverwriteTotal(Step(Step(Empty(maxEntries, maxBytes), small), other), large);
  }

  lemma TwoSmall<V>(maxEntries: nat, maxBytes: nat, a: Op<V>, b: Op<V>)
    requires maxEntries >= 2 && a.PutOp? && b.PutOp? && a.key != b.key && a.bytes == b.bytes == 0
    ensures
      var t := Step(Step(Empty(maxEntries, maxBytes), a), b);
      && Valid(t) && |t.lru| == 2 && t.totalBytes == 0 && t.maxBytes == Max(maxBytes, 1)
      && a.key in t.entries && t.entries[a.key].bytes == 0
  {
    var s0: State<V> := Empty(maxEntries, maxBytes);
    assert Valid(s0);
    PutBeside(s0, a);
    var s1 := Step(s0, a);
    assert s1.entries.Keys == Elements(s1.lru) && s1.lru == [a.key];
    PutBeside(s1, b);
  }

  lemma RunThree<V>(maxEntries: nat, maxBytes: nat, a: Op<V>, b: Op<V>, c: Op<V>)
    ensures Run(maxEntries, maxBytes, [a, b, c]) == Step(Step(Step(Empty(maxEntries, maxBytes), a), b), c)
  {
    assert [a, b, c][..2] == [a, b] && [a, b][..1] == [a] && [a][..0] == [];
    assert Run(maxEntries, maxBytes, [a]) == Step(Empty(maxEntries, maxBytes), a);
    assert Run(maxEntries, maxBytes, [a, b]) == Step(Run(maxEntries, maxBytes, [a]), b);
  }

  lemma OverwriteTotal<V>(s: State<V>, put: Op<V>)
    requires Valid(s) && put.PutOp? && put.key in s.entries
    ensures
      var t := Step(s, put);
      |t.lru| == |s.lru| && t.totalBytes == s.totalBytes - s.entries[put.key].bytes + put.bytes &&
        t.maxBytes == s.maxBytes
  {
    OverwriteBudget(s, put);
  }

  /** Every run from the empty cache stays within budget exactly when the cache has room for
      one entry only. */
  lemma BudgetAlwaysIff<V>(maxEntries: nat, maxBytes: nat, v: V)
    ensures (forall ops: seq<Op<V>> :: WithinBudget(Run(maxEntries, maxBytes, ops))) <==> maxEntries <= 1
  {
    if maxEntries <= 1 {
      forall ops: seq<Op<V>> ensures WithinBudget(Run(maxEntries, maxBytes, ops)) {
        RunValid(maxEntries, maxBytes, ops);
        RunLimits(maxEntries, maxBytes, ops);
      }
    } else {
      OverfillRun(maxEntries, maxBytes, v, Max(maxBytes, 1) + 1);
      assert !WithinBudget(Run(maxEntries, maxBytes, Overfill(v, Max(maxBytes, 1) + 1)));
    }
  }

  lemma {:induction false} RunLimits<V>(maxEntries: nat, maxBytes: nat, ops: seq<Op<V>>)
    ensures Run(maxEntries, maxBytes, ops).maxEntries == Max(maxEntries, 1)
  {
    if ops != [] { RunLimits(maxEntries, maxBytes, ops[..|ops| - 1]); }
  }
}
