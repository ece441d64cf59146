/** The caching wrapper around connectors: transparent exactly when its key tells apart
    every two queries with different answers. */
module CacheMiddleware {
  import opened Base
  import opened Values
  import opened RowOrder
  import opened Rewrite
  import C = Cache
  import opened QueryCache
  import R = CacheRun

  /** A query sent to the connector of this id. */
  datatype Call = Call(connector: string, query: SubQuery)

  /** The parts of a query the key text shows with `{:?}`. */
  datatype Shown = Shown(
    filter: Option<FilterExpr>,
    aggregations: seq<AggregationExpr>,
    groupBy: seq<string>,
    sort: seq<SortExpr>,
    limit: Option<nat>)

  function ShownOf(q: SubQuery): Shown {
    Shown(q.filter, q.aggregations, q.groupBy, q.sort, q.limit)
  }

  function Joined(names: seq<string>): string {
    if names == [] then ""
    else if |names| == 1 then names[0]
    else names[0] + "," + Joined(names[1..])
  }

  /** How keys are made: the debug text of the shown parts and the 64-bit hash. */
  datatype Keying = Keying(debug: Shown -> string, hash: (string, string) -> nat) {
    function Text(q: SubQuery): string {
      q.table + ":" + Joined(q.projections) + ":" + debug(ShownOf(q))
    }

    function Key(c: Call): C.Key { hash(c.connector, Text(c.query)) }
  }

  /** Deterministic connectors, and the size the cache books for an answer. */
  datatype Backend<!V> = Backend(answer: Call -> Outcome<V>, size: V -> nat)

  // ---- The wrapper ----------------------------------------------------------

  /** Looks the call up at `now`; on a miss asks the connector and stores its answer at `later`. */
  function Execute<V>(s: C.State<V>, keying: Keying, backend: Backend<V>, c: Call, ttl: nat, now: nat, later: nat)
    : (C.State<V>, Outcome<V>)
    requires s.maxEntries >= 1
  {
    var (t, found) := C.Get(s, keying.Key(c), now);
    match found
    case Some(v) => (t, Ok(v))
    case None =>
      match backend.answer(c)
      case Err(e) => (t, Err(e))
      case Ok(v) => (C.Put(t, keying.Key(c), v, ttl, backend.size(v), later), Ok(v))
  }

  class CachingConnector<V> {
    const cache: QueryCache<V>
    const ttl: nat
    const id: string

    constructor (id: string, cache: QueryCache<V>, ttl: nat)
      ensures this.id == id && this.cache == cache && this.ttl == ttl
    {
      this.id, this.cache, this.ttl := id, cache, ttl;
    }

    method ExecuteQuery(keying: Keying, backend: Backend<V>, query: SubQuery, now: nat, later: nat)
      returns (r: Outcome<V>)
      requires C.Valid(cache.View())
      modifies cache
      ensures C.Valid(cache.View())
      ensures (cache.View(), r) == Execute(old(cache.View()), keying, backend, Call(id, query), ttl, now, later)
    {
      var key := keying.Key(Call(id, query));
      var found := cache.GetEntry(key, now);
      if found.Some? {
        return Ok(found.value);
      }
      var answer := backend.answer(Call(id, query));
      if answer.Err? {
        return Err(answer.reason);
      }
      cache.PutEntry(key, answer.value, ttl, backend.size(answer.value), later);
      return Ok(answer.value);
    }
  }

  // ---- Transparency over shared runs ----------------------------------------

  /** Every put of the run stores a connector's answer to some call in use, under its key.
      Gets, puts and evictions of all callers may interleave in any way. */
  ghost predicate Honest<V>(keying: Keying, backend: Backend<V>, calls: iset<Call>, ops: seq<R.Op<V>>) {
    forall i :: 0 <= i < |ops| && ops[i].PutOp? ==> Answered(keying, backend, calls, ops[i].key, ops[i].value)
  }

  ghost predicate Answered<V>(keying: Keying, backend: Backend<V>, calls: iset<Call>, key: C.Key, value: V) {
    exists c :: c in calls && keying.Key(c) == key && backend.answer(c) == Ok(value)
  }

  /** Calls with one key have one answer. */
  ghost predicate KeysAgree<V>(keying: Keying, backend: Backend<V>, calls: iset<Call>) {
    forall c, d ::
      c in calls && d in calls && keying.Key(c) == keying.Key(d) && backend.answer(c).Ok? ==>
        backend.answer(d) == backend.answer(c)
  }

  /** Where and when a call is made: after which operations, on which cache, at which times. */
  datatype Moment<V> = Moment(ops: seq<R.Op<V>>, maxEntries: nat, maxBytes: nat, ttl: nat, now: nat, later: nat)

  function AnswerAt<V>(keying: Keying, backend: Backend<V>, c: Call, m: Moment<V>): Outcome<V> {
    Execute(R.Run(m.maxEntries, m.maxBytes, m.ops), keying, backend, c, m.ttl, m.now, m.later).1
  }

  /** Whatever happened before, a wrapped call answers what the connector would. */
  ghost predicate Transparent<V(!new)>(keying: Keying, backend: Backend<V>, calls: iset<Call>) {
    forall c, m: Moment<V> :: c in calls && Honest(keying, backend, calls, m.ops) ==>
      AnswerAt(keying, backend, c, m) == backend.answer(c)
  }

  lemma {:induction false} LatestPutHonest<V>(keying: Keying, backend: Backend<V>, calls: iset<Call>,
                                              ops: seq<R.Op<V>>, key: C.Key)
    requires Honest(keying, backend, calls, ops) && R.LatestPut(ops, key).Some?
    ensures Answered(keying, backend, calls, key, R.LatestPut(ops, key).value.value)
  {
    var last := ops[|ops| - 1];
    if !(last.PutOp? && last.key == key) {
      LatestPutHonest(keying, backend, calls, ops[..|ops| - 1], key);
    }
  }

  lemma TransparentCall<V>(keying: Keying, backend: Backend<V>, calls: iset<Call>, c: Call, m: Moment<V>)
    requires KeysAgree(keying, backend, calls) && Honest(keying, backend, calls, m.ops) && c in calls
    ensures AnswerAt(keying, backend, c, m) == backend.answer(c)
  {
    var s, key := R.Run(m.maxEntries, m.maxBytes, m.ops), keying.Key(c);
    if C.Get(s, key, m.now).1.Some? {
      R.HitIsLatestPut(m.maxEntries, m.maxBytes, m.ops, key, m.now);
      LatestPutHonest(keying, backend, calls, m.ops, key);
      var d :| d in calls && keying.Key(d) == key && backend.answer(d) == Ok(R.LatestPut(m.ops, key).value.value);
    }
  }

  /** The moment right after an answer was stored. */
  function AfterPut<V>(keying: Keying, backend: Backend<V>, c: Call, v: V): Moment<V> {
    Moment([] + [R.PutOp(keying.Key(c), v, 0, backend.size(v), 0)], 1, 1, 0, 0, 0)
  }

  lemma SecondCall<V>(keying: Keying, backend: Backend<V>, c: Call, d: Call, v: V)
    requires keying.Key(c) == keying.Key(d)
    ensures AnswerAt(keying, backend, d, AfterPut(keying, backend, c, v)) == Ok(v)
  {
    R.PutThenGet(1, 1, [], R.PutOp(keying.Key(c), v, 0, backend.size(v), 0), 0);
  }

  /** Two calls that share a key: the second is answered with the first one's result. */
  lemma CollisionShows<V(!new)>(keying: Keying, backend: Backend<V>, calls: iset<Call>, c: Call, d: Call)
    requires c in calls && d in calls && keying.Key(c) == keying.Key(d) && backend.answer(c).Ok?
    requires backend.answer(d) != backend.answer(c)
    ensures !Transparent(keying, backend, calls)
  {
    var v := backend.answer(c).value;
    var m := AfterPut(keying, backend, c, v);
    SecondCall(keying, backend, c, d, v);
    AfterPutHonest(keying, backend, calls, c, v);
    assert d in calls && AnswerAt(keying, backend, d, m) != backend.answer(d);
  }

  lemma AfterPutHonest<V>(keying: Keying, backend: Backend<V>, calls: iset<Call>, c: Call, v: V)
    requires c in calls && backend.answer(c) == Ok(v)
    ensures Honest(keying, backend, calls, AfterPut(keying, backend, c, v).ops)
  {
    assert Answered(keying, backend, calls, keying.Key(c), v);
  }

  /** The wrapper is transparent exactly when calls that share a key share their answer. */
  lemma TransparentIff<V(!new)>(keying: Keying, backend: Backend<V>, calls: iset<Call>)
    ensures Transparent(keying, backend, calls) <==> KeysAgree(keying, backend, calls)
  {
    if KeysAgree(keying, backend, calls) {
      forall c, m: Moment<V> | c in calls && Honest(keying, backend, calls, m.ops)
        ensures AnswerAt(keying, backend, c, m) == backend.answer(c)
      {
        TransparentCall(keying, backend, calls, c, m);
      }
    } else {
      var c, d :| c in calls && d in calls && keying.Key(c) == keying.Key(d) && backend.answer(c).Ok?
        && backend.answer(d) != backend.answer(c);
      CollisionShows(keying, backend, calls, c, d);
    }
  }

  // ---- What the key tells apart ---------------------------------------------

  predicate PlainName(name: string) { name != "" && ':' !in name && ',' !in name }

  /** Table and column names without the characters the key text uses as separators. */
  predicate PlainNames(q: SubQuery) {
    ':' !in q.table && forall i :: 0 <= i < |q.projections| ==> PlainName(q.projections[i])
  }

  ghost predicate Injective(keying: Keying) {
    && (forall x, y :: keying.debug(x) == keying.debug(y) ==> x == y)
    && (forall a, b, c, d :: keying.hash(a, b) == keying.hash(c, d) ==> a == c && b == d)
  }

  /** Everything but HAVING, OFFSET and the passthrough. */
  predicate SameButIgnored(a: SubQuery, b: SubQuery) {
    a == b.(having := a.having, offset := a.offset, passthrough := a.passthrough)
  }

  /** A text splits at its first separator in one way only. */
  lemma SplitOnce(a: string, b: string, c: string, d: string, sep: char)
    requires sep !in a && sep !in c && a + [sep] + b == c + [sep] + d
    ensures a == c && b == d
  {
    var s := a + [sep] + b;
    assert s[|a|] == sep && s[|c|] == sep;
    assert forall i :: 0 <= i < |a| ==> s[i] == a[i];
    assert forall i :: 0 <= i < |c| ==> s[i] == c[i];
    assert |a| == |c|;
    assert a == s[..|a|] && c == s[..|c|];
    assert b == s[|a| + 1..] && d == s[|c| + 1..];
  }

  lemma {:induction false} JoinedLacks(names: seq<string>, c: char)
    requires c != ',' && forall i :: 0 <= i < |names| ==> c !in names[i]
    ensures c !in Joined(names)
  {
    if |names| > 1 { JoinedLacks(names[1..], c); }
  }

  lemma JoinedHead(names: seq<string>)
    requires |names| > 1
    ensures Joined(names) == names[0] + [','] + Joined(names[1..])
  {}

  /** A comma shows that there are several names. */
  lemma JoinedComma(names: seq<string>)
    requires forall i :: 0 <= i < |names| ==> PlainName(names[i])
    ensures ',' in Joined(names) <==> |names| > 1
    ensures Joined(names) == "" <==> names == []
  {
    if |names| > 1 {
      JoinedHead(names);
      assert Joined(names)[|names[0]|] == ',';
    }
  }

  lemma {:induction false} JoinedInjective(a: seq<string>, b: seq<string>)
    requires forall i :: 0 <= i < |a| ==> PlainName(a[i])
    requires forall i :: 0 <= i < |b| ==> PlainName(b[i])
    requires Joined(a) == Joined(b)
    ensures a == b
  {
    if |a| > 1 && |b| > 1 {
      JoinedHead(a);
      JoinedHead(b);
      SplitOnce(a[0], Joined(a[1..]), b[0], Joined(b[1..]), ',');
      JoinedInjective(a[1..], b[1..]);
      assert a == [a[0]] + a[1..] && b == [b[0]] + b[1..];
    } else {
      JoinedComma(a);
      JoinedComma(b);
    }
  }

  /** For plain names the key is blind to HAVING, OFFSET and the passthrough, and to nothing else. */
  lemma KeyExact(keying: Keying, c: Call, d: Call)
    requires Injective(keying) && PlainNames(c.query) && PlainNames(d.query)
    ensures keying.Key(c) == keying.Key(d) <==> c.connector == d.connector && SameButIgnored(c.query, d.query)
  {
    var p, q := c.query, d.query;
    if keying.Key(c) == keying.Key(d) {
      assert keying.Text(p) == p.table + [':'] + (Joined(p.projections) + [':'] + keying.debug(ShownOf(p)));
      assert keying.Text(q) == q.table + [':'] + (Joined(q.projections) + [':'] + keying.debug(ShownOf(q)));
      SplitOnce(p.table, Joined(p.projections) + [':'] + keying.debug(ShownOf(p)),
                q.table, Joined(q.projections) + [':'] + keying.debug(ShownOf(q)), ':');
      JoinedLacks(p.projections, ':');
      JoinedLacks(q.projections, ':');
      SplitOnce(Joined(p.projections), keying.debug(ShownOf(p)), Joined(q.projections), keying.debug(ShownOf(q)), ':');
      JoinedInjective(p.projections, q.projections);
    }
  }

  /** The connectors' answers do not depend on what the key leaves out. */
  ghost predicate IgnoresHidden<V>(backend: Backend<V>, calls: iset<Call>) {
    forall c, d ::
      c in calls && d in calls && c.connector == d.connector && SameButIgnored(c.query, d.query) &&
        backend.answer(c).Ok? ==>
        backend.answer(d) == backend.answer(c)
  }

  /** With plain names and an injective hash, the wrapper is transparent exactly for connectors
      whose answers do not depend on HAVING, OFFSET or the passthrough. */
  lemma TransparentIffIgnoresHidden<V(!new)>(keying: Keying, backend: Backend<V>, calls: iset<Call>)
    requires Injective(keying) && forall c :: c in calls ==> PlainNames(c.query)
    ensures Transparent(keying, backend, calls) <==> IgnoresHidden(backend, calls)
  {
    TransparentIff(keying, backend, calls);
    forall c, d | c in calls && d in calls
      ensures keying.Key(c) == keying.Key(d) <==> c.connector == d.connector && SameButIgnored(c.query, d.query)
    {
      KeyExact(keying, c, d);
    }
  }

  // ---- Names with commas ----------------------------------------------------

  /** A text cut at its commas. */
  function SplitCommas(s: string): (parts: seq<string>)
    ensures |parts| >= 1
  {
    if s == [] then [""]
    else
      var rest := SplitCommas(s[1..]);
      if s[0] == ',' then [""] + rest else Lengthen(s[0], rest)
  }

  /** `x` put at the front of the first piece. */
  function Lengthen(x: char, parts: seq<string>): (r: seq<string>)
    requires |parts| >= 1
    ensures |r| == |parts|
  {
    [[x] + parts[0]] + parts[1..]
  }

  lemma LengthenAppend(x: char, a: seq<string>, b: seq<string>)
    requires |a| >= 1
    ensures Lengthen(x, a + b) == Lengthen(x, a) + b
  {
    assert (a + b)[1..] == a[1..] + b;
  }

  /** What the key text shows of a list of names: the pieces between commas. */
  function Pieces(names: seq<string>): seq<string> {
    if names == [] then [""]
    else if |names| == 1 then SplitCommas(names[0])
    else SplitCommas(names[0]) + Pieces(names[1..])
  }

  lemma {:induction false} SplitAppend(a: string, b: string)
    ensures SplitCommas(a + [','] + b) == SplitCommas(a) + SplitCommas(b)
  {
    var s := a + [','] + b;
    if a == [] {
      assert s[1..] == b;
    } else {
      SplitAppend(a[1..], b);
      assert s[1..] == a[1..] + [','] + b && s[0] == a[0];
      if a[0] == ',' {
        Associative([""], SplitCommas(a[1..]), SplitCommas(b));
      } else {
        LengthenAppend(a[0], SplitCommas(a[1..]), SplitCommas(b));
      }
    }
  }

  lemma {:induction false} SplitJoined(names: seq<string>)
    ensures SplitCommas(Joined(names)) == Pieces(names)
  {
    if |names| > 1 {
      JoinedHead(names);
      SplitAppend(names[0], Joined(names[1..]));
      SplitJoined(names[1..]);
    }
  }

  lemma JoinedLengthen(x: char, parts: seq<string>)
    requires |parts| >= 1
    ensures Joined(Lengthen(x, parts)) == [x] + Joined(parts)
  {
    var r := Lengthen(x, parts);
    if |parts| > 1 {
      JoinedHead(parts);
      JoinedHead(r);
      assert r[1..] == parts[1..] && r[0] == [x] + parts[0];
      Prepended(x, parts[0], Joined(parts[1..]));
    }
  }

  lemma Prepended(x: char, a: string, b: string)
    ensures ([x] + a) + [','] + b == [x] + (a + [','] + b)
  {}

  lemma JoinedBlank(parts: seq<string>)
    requires |parts| >= 1
    ensures Joined([""] + parts) == [','] + Joined(parts)
  {
    var r := [""] + parts;
    JoinedHead(r);
    assert r[1..] == parts;
  }

  lemma {:induction false} JoinedSplit(s: string)
    ensures Joined(SplitCommas(s)) == s
  {
    if s != [] {
      JoinedSplit(s[1..]);
      assert s == [s[0]] + s[1..];
      if s[0] == ',' {
        JoinedBlank(SplitCommas(s[1..]));
      } else {
        JoinedLengthen(s[0], SplitCommas(s[1..]));
      }
    }
  }

  /** Two lists of names have one text exactly when they have the same pieces between commas. */
  lemma JoinedIff(a: seq<string>, b: seq<string>)
    ensures Joined(a) == Joined(b) <==> Pieces(a) == Pieces(b)
  {
    SplitJoined(a);
    SplitJoined(b);
    JoinedSplit(Joined(a));
    JoinedSplit(Joined(b));
  }

  lemma SameAround(prefix: string, a: string, b: string, suffix: string)
    ensures prefix + a + suffix == prefix + b + suffix <==> a == b
  {
    var x, y := prefix + a + suffix, prefix + b + suffix;
    if x == y {
      assert |a| == |b|;
      assert a == x[|prefix|..|prefix| + |a|] && b == y[|prefix|..|prefix| + |b|];
    }
  }

  /** Two queries that differ in their column lists only share a key exactly when those lists
      have the same pieces between commas: a comma in a name looks like a separator, and an
      empty list like one empty name. */
  lemma CommaCollidesIff(keying: Keying, c: Call, a: seq<string>, b: seq<string>)
    requires Injective(keying)
    ensures
      keying.Key(Call(c.connector, c.query.(projections := a))) ==
        keying.Key(Call(c.connector, c.query.(projections := b))) <==>
      Pieces(a) == Pieces(b)
  {
    var p, q := c.query.(projections := a), c.query.(projections := b);
    JoinedIff(a, b);
    var prefix, suffix := c.query.table + ":", ":" + keying.debug(ShownOf(c.query));
    assert ShownOf(p) == ShownOf(c.query) && ShownOf(q) == ShownOf(c.query);
    assert keying.Text(p) == prefix + Joined(a) + suffix && keying.Text(q) == prefix + Joined(b) + suffix;
    SameAround(prefix, Joined(a), Joined(b), suffix);
  }
}
