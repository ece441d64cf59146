/** Sorting as a relation (any sorted permutation, stable or not) and the algebra of
    taking the first rows of sorted sources before merging them. */
module Sorting {
  import opened Base

  ghost predicate TotalPreorder<T(!new)>(leq: (T, T) -> bool) {
    && (forall a, b :: leq(a, b) || leq(b, a))
    && (forall a, b, c :: leq(a, b) && leq(b, c) ==> leq(a, c))
  }

  ghost predicate Sorted<T>(leq: (T, T) -> bool, s: seq<T>) {
    forall i, j :: 0 <= i < j < |s| ==> leq(s[i], s[j])
  }

  /** `t` is what a sort may make of `s`. */
  ghost predicate SortsTo<T>(leq: (T, T) -> bool, s: seq<T>, t: seq<T>) {
    Sorted(leq, t) && multiset(t) == multiset(s)
  }

  ghost predicate Equivalent<T>(leq: (T, T) -> bool, a: T, b: T) {
    leq(a, b) && leq(b, a)
  }

  /** The same sequence of sort keys. */
  ghost predicate SameKeys<T>(leq: (T, T) -> bool, s: seq<T>, t: seq<T>) {
    |s| == |t| && forall i :: 0 <= i < |s| ==> Equivalent(leq, s[i], t[i])
  }

  function Page<T>(s: seq<T>, offset: nat, limit: nat): seq<T> {
    Take(Skip(s, offset), limit)
  }

  /** The page of a query whose LIMIT may be missing. */
  function Window<T>(s: seq<T>, offset: nat, limit: Option<nat>): seq<T> {
    if limit.Some? then Take(Skip(s, offset), limit.value) else Skip(s, offset)
  }

  /** The page `Window` cuts, as a `Page` of known extent. */
  lemma WindowIsPage<T>(s: seq<T>, offset: nat, limit: Option<nat>, bound: nat)
    requires |s| <= bound
    ensures Window(s, offset, limit) == Page(s, offset, if limit.Some? then limit.value else bound)
  {}

  /** Each source hands over at least the first `n` rows of some sorted order of its own. */
  ghost predicate Fetched<T(!new)>(leq: (T, T) -> bool, n: nat, sources: seq<seq<T>>, fetched: seq<seq<T>>) {
    && |fetched| == |sources|
    && forall i :: 0 <= i < |sources| ==> FetchedFrom(leq, n, sources[i], fetched[i])
  }

  ghost predicate FetchedFrom<T(!new)>(leq: (T, T) -> bool, n: nat, source: seq<T>, rows: seq<T>) {
    exists t, m: nat :: SortsTo(leq, source, t) && n <= m && rows == Take(t, m)
  }

  // ---- Every list can be sorted ---------------------------------------------

  /** `x` put before the first element it may come before. */
  function Insert<T>(leq: (T, T) -> bool, s: seq<T>, x: T): seq<T> {
    if s == [] || leq(x, s[0]) then [x] + s else [s[0]] + Insert(leq, s[1..], x)
  }

  function SortOf<T>(leq: (T, T) -> bool, s: seq<T>): seq<T> {
    if s == [] then [] else Insert(leq, SortOf(leq, s[..|s| - 1]), s[|s| - 1])
  }

  lemma {:induction false} InsertMultiset<T>(leq: (T, T) -> bool, s: seq<T>, x: T)
    ensures multiset(Insert(leq, s, x)) == multiset(s) + multiset{x}
  {
    if !(s == [] || leq(x, s[0])) {
      InsertMultiset(leq, s[1..], x);
      assert s == [s[0]] + s[1..];
    }
  }

  lemma {:induction false} InsertSorted<T(!new)>(leq: (T, T) -> bool, s: seq<T>, x: T)
    requires TotalPreorder(leq) && Sorted(leq, s)
    ensures Sorted(leq, Insert(leq, s, x))
  {
    if s == [] || leq(x, s[0]) {
      forall i | 0 <= i < |s| ensures leq(x, s[i]) {
        if i > 0 { assert leq(s[0], s[i]); }
      }
    } else {
      InsertSorted(leq, s[1..], x);
      var rest := Insert(leq, s[1..], x);
      InsertMultiset(leq, s[1..], x);
      forall i | 0 <= i < |rest| ensures leq(s[0], rest[i]) {
        assert rest[i] in multiset(rest);
        if rest[i] != x {
          assert rest[i] in s[1..];
          var j :| 0 <= j < |s| - 1 && s[1..][j] == rest[i];
          assert leq(s[0], s[j + 1]);
        }
      }
    }
  }

  lemma {:induction false} SortOfSorts<T(!new)>(leq: (T, T) -> bool, s: seq<T>)
    requires TotalPreorder(leq)
    ensures SortsTo(leq, s, SortOf(leq, s))
  {
    if s != [] {
      var front, last := s[..|s| - 1], s[|s| - 1];
      SortOfSorts(leq, front);
      InsertSorted(leq, SortOf(leq, front), last);
      InsertMultiset(leq, SortOf(leq, front), last);
      assert s == front + [last];
    }
  }

  /** The inserted element stands right behind elements that must come before it. */
  lemma {:induction false} InsertedAt<T>(leq: (T, T) -> bool, s: seq<T>, x: T) returns (p: nat)
    ensures p < |Insert(leq, s, x)| && Insert(leq, s, x)[p] == x
    ensures p > 0 ==> !leq(x, Insert(leq, s, x)[p - 1])
  {
    if s == [] || leq(x, s[0]) {
      p := 0;
    } else {
      var q := InsertedAt(leq, s[1..], x);
      p := q + 1;
    }
  }

  // ---- Counting the elements up to a bound ----------------------------------

  function CountUpTo<T>(leq: (T, T) -> bool, s: seq<T>, x: T): (n: nat)
    ensures n <= |s|
  {
    if s == [] then 0
    else CountUpTo(leq, s[..|s| - 1], x) + if leq(s[|s| - 1], x) then 1 else 0
  }

  lemma {:induction false} CountAppend<T>(leq: (T, T) -> bool, a: seq<T>, b: seq<T>, x: T)
    ensures CountUpTo(leq, a + b, x) == CountUpTo(leq, a, x) + CountUpTo(leq, b, x)
  {
    if b == [] {
      assert a + b == a;
    } else {
      CountAppend(leq, a, b[..|b| - 1], x);
      assert (a + b)[..|a + b| - 1] == a + b[..|b| - 1];
    }
  }

  /** Where the last element of `s` sits in a permutation of `s`. */
  lemma Locate<T>(s: seq<T>, t: seq<T>) returns (k: nat)
    requires multiset(s) == multiset(t) && s != []
    ensures k < |t| && t == t[..k] + [s[|s| - 1]] + t[k + 1..]
    ensures multiset(s[..|s| - 1]) == multiset(t[..k] + t[k + 1..])
  {
    var front, last := s[..|s| - 1], s[|s| - 1];
    assert s == front + [last];
    assert last in multiset(t);
    k :| 0 <= k < |t| && t[k] == last;
    assert t == t[..k] + [last] + t[k + 1..];
    assert multiset(t[..k] + t[k + 1..]) == multiset(t) - multiset{last};
    assert multiset(front) == multiset(s) - multiset{last};
  }

  lemma {:induction false} CountPermutation<T>(leq: (T, T) -> bool, s: seq<T>, t: seq<T>, x: T)
    requires multiset(s) == multiset(t)
    ensures CountUpTo(leq, s, x) == CountUpTo(leq, t, x)
  {
    PermutationLength(s, t);
    if s != [] {
      var k := Locate(s, t);
      var left, last, right := t[..k], s[|s| - 1], t[k + 1..];
      CountPermutation(leq, s[..|s| - 1], left + right, x);
      CountAppend(leq, left, right, x);
      CountAppend(leq, left, [last], x);
      CountAppend(leq, left + [last], right, x);
    }
  }

  /** In a sorted sequence the elements up to `x` are exactly a prefix. */
  lemma {:induction false} SortedCount<T(!new)>(leq: (T, T) -> bool, s: seq<T>, x: T)
    requires TotalPreorder(leq) && Sorted(leq, s)
    ensures forall i :: 0 <= i < |s| ==> (leq(s[i], x) <==> i < CountUpTo(leq, s, x))
  {
    if s != [] {
      var front, last := s[..|s| - 1], s[|s| - 1];
      assert forall i :: 0 <= i < |front| ==> front[i] == s[i];
      SortedCount(leq, front, x);
      assert leq(last, x) ==> forall i :: 0 <= i < |front| ==> leq(front[i], x);
    }
  }

  lemma TakeCount<T(!new)>(leq: (T, T) -> bool, s: seq<T>, n: nat, x: T)
    requires TotalPreorder(leq) && Sorted(leq, s)
    ensures CountUpTo(leq, Take(s, n), x) == Min(n, CountUpTo(leq, s, x))
  {
    SortedCount(leq, s, x);
    SortedCount(leq, Take(s, n), x);
    var c, d := CountUpTo(leq, s, x), CountUpTo(leq, Take(s, n), x);
    var t := Take(s, n);
    if d < |t| { assert !leq(t[d], x) && t[d] == s[d]; }
    if c < |t| { assert !leq(s[c], x) && t[c] == s[c]; }
  }

  // ---- Fetching a prefix of each source -------------------------------------

  lemma FetchedCount<T(!new)>(leq: (T, T) -> bool, n: nat, source: seq<T>, rows: seq<T>, x: T)
    requires TotalPreorder(leq) && FetchedFrom(leq, n, source, rows)
    ensures Min(n, CountUpTo(leq, source, x)) <= CountUpTo(leq, rows, x) <= CountUpTo(leq, source, x)
  {
    var t, m: nat :| SortsTo(leq, source, t) && n <= m && rows == Take(t, m);
    TakeCount(leq, t, m, x);
    CountPermutation(leq, source, t, x);
  }

  lemma FetchedInit<T(!new)>(leq: (T, T) -> bool, n: nat, sources: seq<seq<T>>, fetched: seq<seq<T>>, k: nat)
    requires Fetched(leq, n, sources, fetched) && |sources| == k + 1
    ensures Fetched(leq, n, sources[..k], fetched[..k]) && FetchedFrom(leq, n, sources[k], fetched[k])
  {}

  lemma {:induction false} UnionCount<T(!new)>(leq: (T, T) -> bool, n: nat, sources: seq<seq<T>>,
                                               fetched: seq<seq<T>>, x: T)
    requires TotalPreorder(leq) && Fetched(leq, n, sources, fetched)
    ensures
      Min(n, CountUpTo(leq, Flatten(sources), x)) <= CountUpTo(leq, Flatten(fetched), x)
      <= CountUpTo(leq, Flatten(sources), x)
  {
    if sources != [] {
      var k := |sources| - 1;
      FetchedInit(leq, n, sources, fetched, k);
      UnionCount(leq, n, sources[..k], fetched[..k], x);
      FetchedCount(leq, n, sources[k], fetched[k], x);
      CountAppend(leq, Flatten(sources[..k]), sources[k], x);
      CountAppend(leq, Flatten(fetched[..k]), fetched[k], x);
    }
  }

  lemma {:induction false} UnionLength<T(!new)>(leq: (T, T) -> bool, n: nat, sources: seq<seq<T>>,
                                                fetched: seq<seq<T>>)
    requires Fetched(leq, n, sources, fetched)
    ensures Min(n, |Flatten(sources)|) <= |Flatten(fetched)| <= |Flatten(sources)|
  {
    if sources != [] {
      var k := |sources| - 1;
      FetchedInit(leq, n, sources, fetched, k);
      UnionLength(leq, n, sources[..k], fetched[..k]);
      var t, m: nat :| SortsTo(leq, sources[k], t) && n <= m && fetched[k] == Take(t, m);
      PermutationLength(t, sources[k]);
    }
  }

  lemma PermutationLength<T>(s: seq<T>, t: seq<T>)
    requires multiset(s) == multiset(t)
    ensures |s| == |t|
  {
    assert |multiset(s)| == |s| && |multiset(t)| == |t|;
  }

  /** Position by position, the merged prefixes agree with the full sort. */
  lemma MergedAt<T(!new)>(leq: (T, T) -> bool, n: nat, sources: seq<seq<T>>, fetched: seq<seq<T>>,
                          merged: seq<T>, full: seq<T>, i: nat)
    requires TotalPreorder(leq) && Fetched(leq, n, sources, fetched)
    requires SortsTo(leq, Flatten(fetched), merged) && SortsTo(leq, Flatten(sources), full)
    requires i < n && i < |full|
    ensures i < |merged| && Equivalent(leq, merged[i], full[i])
  {
    UnionCount(leq, n, sources, fetched, full[i]);
    CountPermutation(leq, full, Flatten(sources), full[i]);
    CountPermutation(leq, merged, Flatten(fetched), full[i]);
    SortedCount(leq, full, full[i]);
    SortedCount(leq, merged, full[i]);
    UnionCount(leq, n, sources, fetched, merged[i]);
    CountPermutation(leq, full, Flatten(sources), merged[i]);
    CountPermutation(leq, merged, Flatten(fetched), merged[i]);
    SortedCount(leq, full, merged[i]);
    SortedCount(leq, merged, merged[i]);
  }

  /** Fetching `offset + limit` rows of each source is enough for the page. */
  lemma PageAgrees<T(!new)>(leq: (T, T) -> bool, n: nat, offset: nat, limit: nat, sources: seq<seq<T>>,
                            fetched: seq<seq<T>>, merged: seq<T>, full: seq<T>)
    requires TotalPreorder(leq) && Fetched(leq, n, sources, fetched)
    requires SortsTo(leq, Flatten(fetched), merged) && SortsTo(leq, Flatten(sources), full)
    requires limit == 0 || offset + limit <= n
    ensures SameKeys(leq, Page(merged, offset, limit), Page(full, offset, limit))
  {
    if limit > 0 {
      UnionLength(leq, n, sources, fetched);
      PermutationLength(merged, Flatten(fetched));
      PermutationLength(full, Flatten(sources));
      var a, b := Page(merged, offset, limit), Page(full, offset, limit);
      assert |a| == |b|;
      forall i | 0 <= i < |b| ensures Equivalent(leq, a[i], b[i]) {
        MergedAt(leq, n, sources, fetched, merged, full, offset + i);
        assert a[i] == merged[offset + i] && b[i] == full[offset + i];
      }
    }
  }

  // ---- Unsorted sources -----------------------------------------------------

  /** Each source hands over at least its first `n` rows, in its own order. */
  ghost predicate FirstRows<T>(n: nat, sources: seq<seq<T>>, fetched: seq<seq<T>>) {
    |fetched| == |sources| && forall i :: 0 <= i < |sources| ==> FirstRowsOf(n, sources[i], fetched[i])
  }

  ghost predicate FirstRowsOf<T>(n: nat, source: seq<T>, rows: seq<T>) {
    rows <= source && (n <= |rows| || rows == source)
  }

  lemma {:induction false} FirstRowsPrefix<T>(n: nat, sources: seq<seq<T>>, fetched: seq<seq<T>>)
    requires FirstRows(n, sources, fetched)
    ensures Take(Flatten(fetched), n) == Take(Flatten(sources), n)
  {
    if sources != [] {
      var k := |sources| - 1;
      assert forall i :: 0 <= i < k ==> FirstRowsOf(n, sources[i], fetched[i]);
      FirstRowsPrefix(n, sources[..k], fetched[..k]);
      assert FirstRowsOf(n, sources[k], fetched[k]);
      PrefixThen(n, Flatten(sources[..k]), Flatten(fetched[..k]), sources[k], fetched[k]);
    }
  }

  lemma {:induction false} FirstRowsShorter<T>(n: nat, sources: seq<seq<T>>, fetched: seq<seq<T>>)
    requires FirstRows(n, sources, fetched)
    ensures |Flatten(fetched)| <= |Flatten(sources)|
  {
    if sources != [] {
      var k := |sources| - 1;
      assert forall i :: 0 <= i < k ==> FirstRowsOf(n, sources[i], fetched[i]);
      FirstRowsShorter(n, sources[..k], fetched[..k]);
      assert FirstRowsOf(n, sources[k], fetched[k]);
    }
  }

  lemma PrefixThen<T>(n: nat, s: seq<T>, f: seq<T>, source: seq<T>, rows: seq<T>)
    requires Take(f, n) == Take(s, n) && FirstRowsOf(n, source, rows)
    ensures Take(f + rows, n) == Take(s + source, n)
  {
    if |s| < n {
      assert f == s;
      if rows != source { assert (s + rows)[..n] == (s + source)[..n]; }
    } else {
      assert (f + rows)[..n] == f[..n] && (s + source)[..n] == s[..n];
    }
  }

  /** UNION ALL with a limit: the page is the same rows in the same order. */
  lemma UnsortedPageAgrees<T>(n: nat, offset: nat, limit: nat, sources: seq<seq<T>>, fetched: seq<seq<T>>)
    requires FirstRows(n, sources, fetched)
    requires limit == 0 || offset + limit <= n
    ensures Page(Flatten(fetched), offset, limit) == Page(Flatten(sources), offset, limit)
  {
    if limit > 0 {
      FirstRowsPrefix(n, sources, fetched);
      PageOfTake(Flatten(fetched), n, offset, limit);
      PageOfTake(Flatten(sources), n, offset, limit);
    }
  }

  lemma PageOfTake<T>(s: seq<T>, n: nat, offset: nat, limit: nat)
    requires offset + limit <= n
    ensures Page(Take(s, n), offset, limit) == Page(s, offset, limit)
  {}

  // ---- The bound is exact ---------------------------------------------------

  lemma FlattenOne<T>(s: seq<T>)
    ensures Flatten([s]) == s
  {
    assert [s][..0] == [];
  }

  /** A source asked for `n` rows hands over at least so many; asked for all, all of them. */
  ghost predicate Served<T(!new)>(leq: (T, T) -> bool, n: Option<nat>, sources: seq<seq<T>>, fetched: seq<seq<T>>) {
    && |fetched| == |sources|
    && forall i :: 0 <= i < |sources| ==> ServedFrom(leq, n, sources[i], fetched[i])
  }

  ghost predicate ServedFrom<T(!new)>(leq: (T, T) -> bool, n: Option<nat>, source: seq<T>, rows: seq<T>) {
    if n.Some? then FetchedFrom(leq, n.value, source, rows) else SortsTo(leq, source, rows)
  }

  /** One way the prefixes and the whole union may come out sorted. */
  ghost predicate SortedBothWays<T(!new)>(leq: (T, T) -> bool, n: Option<nat>, sources: seq<seq<T>>,
                                          fetched: seq<seq<T>>, merged: seq<T>, full: seq<T>) {
    && Served(leq, n, sources, fetched)
    && SortsTo(leq, Flatten(fetched), merged)
    && SortsTo(leq, Flatten(sources), full)
  }

  /** Whatever the sources hold, and however each sort breaks its ties, the page is right. */
  ghost predicate AlwaysRight<T(!new)>(leq: (T, T) -> bool, n: Option<nat>, offset: nat, limit: Option<nat>) {
    forall sources: seq<seq<T>>, fetched: seq<seq<T>>, merged: seq<T>, full: seq<T> ::
      SortedBothWays(leq, n, sources, fetched, merged, full) ==>
        SameKeys(leq, Window(merged, offset, limit), Window(full, offset, limit))
  }

  /** Enough rows are asked for: all of them, down to the page's end, or none is wanted. */
  predicate Enough(n: Option<nat>, offset: nat, limit: Option<nat>) {
    n.None? || (limit.Some? && (limit.value == 0 || offset + limit.value <= n.value))
  }

  /** A page is right for every content of the sources exactly when enough rows are asked for. */
  lemma AlwaysRightIff<T(!new)>(leq: (T, T) -> bool, n: Option<nat>, offset: nat, limit: Option<nat>, x: T)
    requires TotalPreorder(leq)
    ensures AlwaysRight(leq, n, offset, limit) <==> Enough(n, offset, limit)
  {
    if Enough(n, offset, limit) {
      forall sources: seq<seq<T>>, fetched: seq<seq<T>>, merged: seq<T>, full: seq<T> |
        SortedBothWays(leq, n, sources, fetched, merged, full)
        ensures SameKeys(leq, Window(merged, offset, limit), Window(full, offset, limit))
      {
        EnoughFetched(leq, n, offset, limit, sources, fetched, merged, full);
      }
    } else {
      TooFewFetched(leq, n.value, offset, limit, x);
    }
  }

  /** Without an order each source hands over its first rows. */
  ghost predicate ServedUnsorted<T>(n: Option<nat>, sources: seq<seq<T>>, fetched: seq<seq<T>>) {
    if n.Some? then FirstRows(n.value, sources, fetched) else fetched == sources
  }

  /** Whatever the sources hold, the page has the very rows of the union's, in its order. */
  ghost predicate AlwaysSameRows<T(!new)>(n: Option<nat>, offset: nat, limit: Option<nat>) {
    forall sources: seq<seq<T>>, fetched: seq<seq<T>> :: ServedUnsorted(n, sources, fetched) ==>
      Window(Flatten(fetched), offset, limit) == Window(Flatten(sources), offset, limit)
  }

  lemma AlwaysSameRowsIff<T(!new)>(n: Option<nat>, offset: nat, limit: Option<nat>, x: T)
    ensures AlwaysSameRows<T>(n, offset, limit) <==> Enough(n, offset, limit)
  {
    if Enough(n, offset, limit) {
      forall sources: seq<seq<T>>, fetched: seq<seq<T>> | ServedUnsorted(n, sources, fetched)
        ensures Window(Flatten(fetched), offset, limit) == Window(Flatten(sources), offset, limit)
      {
        if n.Some? { UnsortedPageAgrees(n.value, offset, limit.value, sources, fetched); }
      }
    } else {
      TooFewUnsorted(n.value, offset, limit, x);
    }
  }

  lemma TooFewUnsorted<T(!new)>(n: nat, offset: nat, limit: Option<nat>, x: T)
    requires !Enough(Some(n), offset, limit)
    ensures !AlwaysSameRows<T>(Some(n), offset, limit)
  {
    var size := if limit.Some? then limit.value else n + 1;
    var full := Copies(x, offset + size);
    var cut := Take(full, n);
    FlattenOne(full);
    FlattenOne(cut);
    assert FirstRowsOf(n, full, cut);
    assert ServedUnsorted(Some(n), [full], [cut]);
    assert |Window(full, offset, limit)| == size && |Window(cut, offset, limit)| < size;
  }

  lemma ServedIsFetched<T(!new)>(leq: (T, T) -> bool, n: Option<nat>, k: nat, sources: seq<seq<T>>,
                                 fetched: seq<seq<T>>)
    requires Served(leq, n, sources, fetched) && (n.Some? ==> k <= n.value)
    ensures Fetched(leq, k, sources, fetched)
  {
    forall i | 0 <= i < |sources| ensures FetchedFrom(leq, k, sources[i], fetched[i]) {
      if n.None? {
        var rows := fetched[i];
        assert SortsTo(leq, sources[i], rows) && rows == Take(rows, k + |rows|);
      } else {
        var t, m: nat :| SortsTo(leq, sources[i], t) && n.value <= m && fetched[i] == Take(t, m);
        assert k <= m;
      }
    }
  }

  lemma EnoughFetched<T(!new)>(leq: (T, T) -> bool, n: Option<nat>, offset: nat, limit: Option<nat>,
                               sources: seq<seq<T>>, fetched: seq<seq<T>>, merged: seq<T>, full: seq<T>)
    requires TotalPreorder(leq) && SortedBothWays(leq, n, sources, fetched, merged, full)
    requires Enough(n, offset, limit)
    ensures SameKeys(leq, Window(merged, offset, limit), Window(full, offset, limit))
  {
    var size := if limit.Some? then limit.value else |merged| + |full|;
    var k := if n.Some? && size == 0 then 0 else offset + size;
    ServedIsFetched(leq, n, k, sources, fetched);
    PageAgrees(leq, k, offset, size, sources, fetched, merged, full);
    WindowIsPage(merged, offset, limit, |merged| + |full|);
    WindowIsPage(full, offset, limit, |merged| + |full|);
  }

  lemma TooFewFetched<T(!new)>(leq: (T, T) -> bool, n: nat, offset: nat, limit: Option<nat>, x: T)
    requires TotalPreorder(leq) && !Enough(Some(n), offset, limit)
    ensures !AlwaysRight(leq, Some(n), offset, limit)
  {
    var size := if limit.Some? then limit.value else n + 1;
    var full := Copies(x, offset + size);
    var merged := Take(full, n);
    FetchedCopies(leq, n, offset + size, x);
    assert |Window(full, offset, limit)| == size && |Window(merged, offset, limit)| < size;
    assert !SameKeys(leq, Window(merged, offset, limit), Window(full, offset, limit));
  }

  lemma FetchedCopies<T(!new)>(leq: (T, T) -> bool, n: nat, m: nat, x: T)
    requires leq(x, x)
    ensures
      var full := Copies(x, m);
      SortedBothWays(leq, Some(n), [full], [Take(full, n)], Take(full, n), full)
  {
    var full := Copies(x, m);
    FlattenOne(full);
    FlattenOne(Take(full, n));
    assert SortsTo(leq, full, full);
    assert FetchedFrom(leq, n, full, Take(full, n));
  }
}
