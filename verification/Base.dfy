/** Small generic vocabulary shared by the models: options, outcomes and the
    sequence operations the Rust iterators stand for. */
module Base {

  datatype Option<+T> = None | Some(value: T)

  datatype Outcome<+T> = Ok(value: T) | Err(reason: string)

  /** `iter().map(f).collect()` */
  function Map<A, B>(f: A -> B, s: seq<A>): (r: seq<B>)
    ensures |r| == |s|
    ensures forall i :: 0 <= i < |s| ==> r[i] == f(s[i])
  {
    seq(|s|, i requires 0 <= i < |s| => f(s[i]))
  }

  /** `iter().filter(p).collect()` */
  function Filter<T>(p: T -> bool, s: seq<T>): (r: seq<T>)
    ensures |r| <= |s|
  {
    if s == [] then []
    else
      var rest := Filter(p, s[..|s| - 1]);
      if p(s[|s| - 1]) then rest + [s[|s| - 1]] else rest
  }

  /** `into_iter().flatten().collect()` */
  function Flatten<T>(ss: seq<seq<T>>): seq<T> {
    if ss == [] then [] else Flatten(ss[..|ss| - 1]) + ss[|ss| - 1]
  }

  /** The first `n` elements, or all of them when there are fewer. */
  function Take<T>(s: seq<T>, n: nat): (r: seq<T>)
    ensures |r| == if n < |s| then n else |s|
    ensures r <= s
  {
    if n < |s| then s[..n] else s
  }

  /** Everything after the first `n` elements. */
  function Skip<T>(s: seq<T>, n: nat): (r: seq<T>)
    ensures |r| == if n < |s| then |s| - n else 0
    ensures forall i :: 0 <= i < |r| ==> r[i] == s[n + i]
  {
    if n < |s| then s[n..] else []
  }

  function Min(a: int, b: int): int { if a < b then a else b }

  function Max(a: int, b: int): int { if a < b then b else a }

  ghost predicate NoDuplicates<T>(s: seq<T>) {
    forall i, j :: 0 <= i < j < |s| ==> s[i] != s[j]
  }

  function Elements<T>(s: seq<T>): set<T> { set x | x in s }

  lemma {:induction false} FilterMember<T>(p: T -> bool, s: seq<T>, x: T)
    ensures x in Filter(p, s) <==> x in s && p(x)
  {
    if s != [] {
      FilterMember(p, s[..|s| - 1], x);
      assert s == s[..|s| - 1] + [s[|s| - 1]];
    }
  }

  lemma {:induction false} FilterAppend<T>(p: T -> bool, a: seq<T>, b: seq<T>)
    ensures Filter(p, a + b) == Filter(p, a) + Filter(p, b)
  {
    if b == [] {
      assert a + b == a && Filter(p, a) + [] == Filter(p, a);
    } else {
      var front, last := b[..|b| - 1], b[|b| - 1];
      FilterAppend(p, a, front);
      FilterAppendOne(p, a, front, last);
      assert front + [last] == b;
    }
  }

  lemma FilterAppendOne<T>(p: T -> bool, a: seq<T>, b: seq<T>, x: T)
    requires Filter(p, a + b) == Filter(p, a) + Filter(p, b)
    ensures Filter(p, a + (b + [x])) == Filter(p, a) + Filter(p, b + [x])
  {
    Associative(a, b, [x]);
    FilterSnoc(p, a + b, x);
    FilterSnoc(p, b, x);
    Associative(Filter(p, a), Filter(p, b), [x]);
  }

  lemma Associative<T>(a: seq<T>, b: seq<T>, c: seq<T>)
    ensures (a + b) + c == a + (b + c)
  {}

  lemma FilterSnoc<T>(p: T -> bool, s: seq<T>, x: T)
    ensures Filter(p, s + [x]) == if p(x) then Filter(p, s) + [x] else Filter(p, s)
  {
    assert (s + [x])[..|s + [x]| - 1] == s;
  }

  lemma {:induction false} FilterMultiset<T>(p: T -> bool, s: seq<T>, x: T)
    ensures multiset(Filter(p, s))[x] == if p(x) then multiset(s)[x] else 0
  {
    if s != [] {
      FilterMultiset(p, s[..|s| - 1], x);
      assert s == s[..|s| - 1] + [s[|s| - 1]];
    }
  }

  lemma {:induction false} FlattenAppend<T>(a: seq<seq<T>>, b: seq<seq<T>>)
    ensures Flatten(a + b) == Flatten(a) + Flatten(b)
  {
    if b == [] {
      assert a + b == a;
    } else {
      var front, last := b[..|b| - 1], b[|b| - 1];
      FlattenAppend(a, front);
      assert b == front + [last];
      Associative(a, front, [last]);
      FlattenSnoc(a + front, last);
      FlattenSnoc(front, last);
      Associative(Flatten(a), Flatten(front), last);
    }
  }

  lemma FlattenSnoc<T>(ss: seq<seq<T>>, s: seq<T>)
    ensures Flatten(ss + [s]) == Flatten(ss) + s
  {
    assert (ss + [s])[..|ss|] == ss;
  }

  /** Filtering first by something weaker changes nothing. */
  lemma {:induction false} FilterImplied<T>(weak: T -> bool, strong: T -> bool, s: seq<T>)
    requires forall i :: 0 <= i < |s| && strong(s[i]) ==> weak(s[i])
    ensures Filter(strong, Filter(weak, s)) == Filter(strong, s)
  {
    if s != [] {
      var front, last := s[..|s| - 1], s[|s| - 1];
      FilterImplied(weak, strong, front);
      if weak(last) {
        var kept := Filter(weak, front);
        assert (kept + [last])[..|kept + [last]| - 1] == kept;
      }
    }
  }

  lemma {:induction false} SameFilter<T>(p: T -> bool, q: T -> bool, s: seq<T>)
    requires forall i :: 0 <= i < |s| ==> p(s[i]) == q(s[i])
    ensures Filter(p, s) == Filter(q, s)
  {
    if s != [] { SameFilter(p, q, s[..|s| - 1]); }
  }

  lemma MapAppend<A, B>(f: A -> B, a: seq<A>, b: seq<A>)
    ensures Map(f, a + b) == Map(f, a) + Map(f, b)
  {}

  lemma {:induction false} Once<T>(s: seq<T>, x: T)
    requires NoDuplicates(s)
    ensures multiset(s)[x] == if x in s then 1 else 0
  {
    if s != [] {
      var front, last := s[..|s| - 1], s[|s| - 1];
      assert s == front + [last];
      Once(front, x);
      assert x == last ==> x !in front;
    }
  }

  lemma {:induction false} DistinctSize<T>(s: seq<T>)
    requires NoDuplicates(s)
    ensures |Elements(s)| == |s|
  {
    if s != [] {
      var front, last := s[..|s| - 1], s[|s| - 1];
      DistinctSize(front);
      assert Elements(s) == Elements(front) + {last};
      assert last !in front;
    }
  }

  lemma {:induction false} FilterAll<T>(p: T -> bool, s: seq<T>)
    ensures |Filter(p, s)| == |s| ==> Filter(p, s) == s
  {
    if s != [] {
      FilterAll(p, s[..|s| - 1]);
      assert s == s[..|s| - 1] + [s[|s| - 1]];
    }
  }

  lemma MapTake<A, B>(f: A -> B, s: seq<A>, n: nat)
    ensures Map(f, Take(s, n)) == Take(Map(f, s), n)
  {}

  function Copies<T>(x: T, n: nat): (s: seq<T>)
    ensures |s| == n && forall i :: 0 <= i < n ==> s[i] == x
  {
    seq(n, i => x)
  }

  lemma {:induction false} MapFlatten<A, B>(f: A -> B, ss: seq<seq<A>>)
    ensures Map(f, Flatten(ss)) == Flatten(Map(s => Map(f, s), ss))
  {
    if ss != [] {
      var k := |ss| - 1;
      MapFlatten(f, ss[..k]);
      var g := s => Map(f, s);
      assert Map(g, ss)[..k] == Map(g, ss[..k]);
      assert Map(f, Flatten(ss[..k]) + ss[k]) == Map(f, Flatten(ss[..k])) + Map(f, ss[k]);
    }
  }

  lemma {:induction false} FilterFlatten<T>(p: T -> bool, ss: seq<seq<T>>)
    ensures Filter(p, Flatten(ss)) == Flatten(Map(s => Filter(p, s), ss))
  {
    if ss != [] {
      var k := |ss| - 1;
      FilterFlatten(p, ss[..k]);
      var g := s => Filter(p, s);
      assert Map(g, ss)[..k] == Map(g, ss[..k]);
      FilterAppend(p, Flatten(ss[..k]), ss[k]);
    }
  }

  /** A LIMIT that may be missing. */
  function Limited<T>(n: Option<nat>, s: seq<T>): seq<T> { if n.Some? then Take(s, n.value) else s }

  lemma FilterOne<T>(p: T -> bool, x: T)
    ensures Filter(p, [x]) == if p(x) then [x] else []
  {
    assert [x][..0] == [];
  }

  lemma {:induction false} FilterNoneIff<T>(p: T -> bool, s: seq<T>)
    ensures Filter(p, s) == [] <==> forall i :: 0 <= i < |s| ==> !p(s[i])
  {
    if s != [] {
      var n := |s| - 1;
      FilterNoneIff(p, s[..n]);
      assert s == s[..n] + [s[n]];
    }
  }

  lemma FilterTailNone<T>(p: T -> bool, s: seq<T>, n: nat)
    requires n <= |s|
    ensures Filter(p, s[n..]) == [] <==> forall i :: n <= i < |s| ==> !p(s[i])
  {
    var tail := s[n..];
    FilterNoneIff(p, tail);
    if Filter(p, tail) == [] {
      forall i | n <= i < |s| ensures !p(s[i]) { assert tail[i - n] == s[i]; }
    }
  }

  lemma {:induction false} FilterDistinct<T>(p: T -> bool, s: seq<T>)
    requires NoDuplicates(s)
    ensures NoDuplicates(Filter(p, s))
  {
    if s != [] {
      var front, last := s[..|s| - 1], s[|s| - 1];
      FilterDistinct(p, front);
      FilterMember(p, front, last);
    }
  }
}
