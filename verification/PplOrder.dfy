/** Pipes out of canonical order: every command moves to the place SQL gives its clause, and
    a second command of a kind is dropped.  When each of these is harmless. */
module PplOrder {
  import opened Base
  import opened Values
  import opened Sorting
  import opened RowOrder
  import opened Merger
  import opened Ppl

  // ---- where and head -------------------------------------------------------

  /** A later predicate is dropped: harmless exactly when every row the first one keeps
      passes it as well. */
  lemma SecondWhereIff(m: Meaning, source: string, first: string, second: string, rows: seq<Row>)
    ensures
      var cs := [Where(first), Where(second)];
      var sql := PplToSql(PplQuery([source], cs));
      && sql.Ok?
      && (SameAnswers(m, sql.value, cs, rows) <==>
            forall i :: 0 <= i < |rows| && m.holds(first, rows[i]) ==> m.holds(second, rows[i]))
  {
    var cs := [Where(first), Where(second)];
    var sql := PplToSql(PplQuery([source], cs)).value;
    var p := Pipeline(Some(first), None, None, None, None);
    assert Commands(p) == [Where(first)];
    CanonicalSql(p, [source]);
    FindSkips([Where(first)], [Where(second)]);
    FindSkips([Where(second)], []);
    assert cs == [Where(first)] + [Where(second)] && [Where(second)] == [Where(second)] + [];
    assert sql == CanonicalClauses(p, [source]);
    var kept := Filter(m.Test(first), rows);
    forall out ensures SqlAnswers(m, sql, [rows], out) <==> out == kept {
      FlattenOne(rows);
      SqlCanonical(m, p, [source], [rows], out);
      assert OrderedBy(p.sort, kept, kept);
    }
    forall out ensures PipeAnswers(m, cs, rows, out) <==> out == Filter(m.Test(second), kept) {
      PipeTwo(m, Where(first), Where(second), rows, out);
    }
    FilterAllIff(m.Test(second), kept);
    SameAnswersOf(m, sql, cs, rows, kept, Filter(m.Test(second), kept));
    forall i | 0 <= i < |rows| ensures rows[i] in kept <==> m.holds(first, rows[i]) {
      FilterMember(m.Test(first), rows, rows[i]);
    }
    forall i | 0 <= i < |kept| ensures kept[i] in rows && m.holds(first, kept[i]) {
      FilterMember(m.Test(first), rows, kept[i]);
    }
  }

  ghost predicate SameAnswers(m: Meaning, sql: Sql, cs: seq<Command>, rows: seq<Row>) {
    forall out :: SqlAnswers(m, sql, [rows], out) <==> PipeAnswers(m, cs, rows, out)
  }

  lemma SameAnswersOf(m: Meaning, sql: Sql, cs: seq<Command>, rows: seq<Row>, a: seq<Row>, b: seq<Row>)
    requires forall out :: SqlAnswers(m, sql, [rows], out) <==> out == a
    requires forall out :: PipeAnswers(m, cs, rows, out) <==> out == b
    ensures SameAnswers(m, sql, cs, rows) <==> a == b
  {
    assert SqlAnswers(m, sql, [rows], a) && PipeAnswers(m, cs, rows, b);
  }

  /** What `where` and `head` leave. */
  function Narrowed(m: Meaning, c: Command, rows: seq<Row>): seq<Row>
    requires c.Where? || c.Head?
  {
    if c.Where? then Filter(m.Test(c.expr), rows) else Take(rows, c.n)
  }

  lemma PipeNarrow(m: Meaning, c: Command, rest: seq<Command>, rows: seq<Row>, out: seq<Row>)
    requires c.Where? || c.Head?
    ensures PipeAnswers(m, [c] + rest, rows, out) <==> PipeAnswers(m, rest, Narrowed(m, c, rows), out)
  {
    PipeOne(m, [c], rest, rows, out);
    assert Does(m, [c][0], rows, Narrowed(m, c, rows));
  }

  lemma PipeTwo(m: Meaning, c: Command, d: Command, rows: seq<Row>, out: seq<Row>)
    requires (c.Where? || c.Head?) && (d.Where? || d.Head?)
    ensures PipeAnswers(m, [c, d], rows, out) <==> out == Narrowed(m, d, Narrowed(m, c, rows))
  {
    assert [c, d] == [c] + [d] && [d] == [d] + [];
    PipeNarrow(m, c, [d], rows, out);
    PipeNarrow(m, d, [], Narrowed(m, c, rows), out);
  }

  lemma {:induction false} FilterAllIff<T>(p: T -> bool, s: seq<T>)
    ensures Filter(p, s) == s <==> forall i :: 0 <= i < |s| ==> p(s[i])
  {
    if s != [] {
      var n := |s| - 1;
      FilterAllIff(p, s[..n]);
      assert s == s[..n] + [s[n]];
      if Filter(p, s) == s {
        assert p(s[n]);
        assert Filter(p, s[..n]) == s[..n];
      }
    }
  }

  /** `head` before `where` is applied after it: harmless exactly when the first `n` rows
      all pass, or no later row passes. */
  lemma HeadBeforeWhereIff(m: Meaning, source: string, n: nat, expr: string, rows: seq<Row>)
    ensures
      var cs := [Head(n), Where(expr)];
      var sql := PplToSql(PplQuery([source], cs));
      && sql.Ok?
      && (SameAnswers(m, sql.value, cs, rows) <==>
            || n >= |rows|
            || (forall i :: 0 <= i < n ==> m.holds(expr, rows[i]))
            || (forall i :: n <= i < |rows| ==> !m.holds(expr, rows[i])))
  {
    var cs := [Head(n), Where(expr)];
    var sql := PplToSql(PplQuery([source], cs)).value;
    var p := Pipeline(Some(expr), None, None, Some(n), None);
    FindSkips([Head(n)], [Where(expr)]);
    FindSkips([Where(expr)], []);
    assert cs == [Head(n)] + [Where(expr)] && [Where(expr)] == [Where(expr)] + [];
    assert sql == CanonicalClauses(p, [source]);
    var test := m.Test(expr);
    var late, early := Take(Filter(test, rows), n), Filter(test, Take(rows, n));
    forall out ensures SqlAnswers(m, sql, [rows], out) <==> out == late {
      FlattenOne(rows);
      SqlCanonical(m, p, [source], [rows], out);
      assert OrderedBy(p.sort, Filter(test, rows), Filter(test, rows));
    }
    forall out ensures PipeAnswers(m, cs, rows, out) <==> out == early {
      PipeTwo(m, Head(n), Where(expr), rows, out);
    }
    SameAnswersOf(m, sql, cs, rows, late, early);
    if n < |rows| { CutThenFilter(test, rows, n); }
  }

  /** Filtering the first `n` elements is the first `n` of the filtered ones exactly when
      the first `n` all pass or none of the others do. */
  lemma CutThenFilter<T>(p: T -> bool, s: seq<T>, n: nat)
    requires n < |s|
    ensures Take(Filter(p, s), n) == Filter(p, s[..n]) <==>
      || (forall i :: 0 <= i < n ==> p(s[i]))
      || (forall i :: n <= i < |s| ==> !p(s[i]))
  {
    var head, tail := s[..n], s[n..];
    assert s == head + tail;
    FilterAppend(p, head, tail);
    FilterAllIff(p, head);
    FilterTailNone(p, s, n);
    FilterAll(p, head);
    TakeFront(Filter(p, head), Filter(p, tail), n);
  }

  lemma TakeFront<T>(a: seq<T>, b: seq<T>, n: nat)
    requires |a| <= n
    ensures Take(a + b, n) == a <==> |a| == n || b == []
  {
    assert |Take(a + b, n)| == Min(n, |a| + |b|);
    if |a| == n || b == [] {
      assert a + b == a || (a + b)[..n] == a;
    }
  }

  // ---- head before sort -----------------------------------------------------

  /** The first `n` rows are the only `n` that may come first. */
  ghost predicate SettledFront<T(!new)>(leq: (T, T) -> bool, s: seq<T>, n: nat) {
    forall i, j :: 0 <= i < n <= j < |s| ==> leq(s[i], s[j]) && (leq(s[j], s[i]) ==> s[i] == s[j])
  }

  /** What `head` and `sort` leave in either order. */
  ghost predicate CutThenSorted<T>(leq: (T, T) -> bool, s: seq<T>, n: nat, out: seq<T>) {
    SortsTo(leq, Take(s, n), out)
  }

  ghost predicate SortedThenCut<T(!new)>(leq: (T, T) -> bool, s: seq<T>, n: nat, out: seq<T>) {
    exists listed :: SortsTo(leq, s, listed) && out == Take(listed, n)
  }

  /** Of two different collections of one size, each has more of something. */
  lemma Excess<T>(a: seq<T>, b: seq<T>) returns (x: T)
    requires |a| == |b| && multiset(a) != multiset(b)
    ensures multiset(a)[x] > multiset(b)[x]
  {
    var ma, mb := multiset(a), multiset(b);
    assert |ma| == |mb|;
    if ma <= mb { SameSize(ma, mb); }
    x :| x in ma && ma[x] > mb[x];
  }

  lemma SameSize<T>(a: multiset<T>, b: multiset<T>)
    requires a <= b && |a| == |b|
    ensures a == b
  {
    assert b == a + (b - a);
    assert |b - a| == 0;
  }

  lemma PrefixSorts<T>(leq: (T, T) -> bool, s: seq<T>, n: nat, listed: seq<T>)
    requires n <= |s| && SortsTo(leq, s, listed)
    ensures |listed| == |s| && Sorted(leq, listed[..n])
    ensures forall x :: multiset(s[..n])[x] + multiset(s[n..])[x] == multiset(listed[..n])[x] + multiset(listed[n..])[x]
  {
    PermutationLength(listed, s);
    assert s == s[..n] + s[n..] && listed == listed[..n] + listed[n..];
    forall x ensures multiset(s[..n])[x] + multiset(s[n..])[x] == multiset(listed[..n])[x] + multiset(listed[n..])[x] {
      assert multiset(s)[x] == multiset(listed)[x];
    }
  }

  /** With a settled front, every sorted listing starts with those rows. */
  lemma FrontStays<T(!new)>(leq: (T, T) -> bool, s: seq<T>, n: nat, listed: seq<T>)
    requires n <= |s| && SettledFront(leq, s, n) && SortsTo(leq, s, listed)
    ensures |listed| == |s| && SortsTo(leq, s[..n], listed[..n])
  {
    PrefixSorts(leq, s, n, listed);
    if multiset(listed[..n]) != multiset(s[..n]) {
      var x := Excess(listed[..n], s[..n]);
      var y := Excess(s[..n], listed[..n]);
      assert x in multiset(listed[..n]) && x in multiset(s[n..]);
      assert y in multiset(s[..n]) && y in multiset(listed[n..]);
      FrontClash(leq, s, n, listed, x, y);
    }
  }

  lemma FrontClash<T(!new)>(leq: (T, T) -> bool, s: seq<T>, n: nat, listed: seq<T>, x: T, y: T)
    requires n <= |s| == |listed| && SettledFront(leq, s, n) && Sorted(leq, listed)
    requires x in listed[..n] && x in s[n..] && y in s[..n] && y in listed[n..]
    ensures x == y
  {
    var a :| 0 <= a < n && listed[..n][a] == x;
    var b :| 0 <= b < |s| - n && s[n..][b] == x;
    var c :| 0 <= c < n && s[..n][c] == y;
    var d :| 0 <= d < |s| - n && listed[n..][d] == y;
    assert leq(listed[a], listed[n + d]);
    assert leq(s[c], s[n + b]) && s[c] == y && s[n + b] == x;
  }

  /** And every order of those rows can be continued to a sorted listing. */
  lemma FrontExtends<T(!new)>(leq: (T, T) -> bool, s: seq<T>, n: nat, out: seq<T>)
    requires TotalPreorder(leq) && n <= |s| && SettledFront(leq, s, n) && SortsTo(leq, s[..n], out)
    ensures SortedThenCut(leq, s, n, out)
  {
    var rest := SortOf(leq, s[n..]);
    SortOfSorts(leq, s[n..]);
    PermutationLength(out, s[..n]);
    var listed := out + rest;
    assert s == s[..n] + s[n..];
    forall i, j | 0 <= i < |out| && 0 <= j < |rest| ensures leq(out[i], rest[j]) {
      assert out[i] in multiset(out) && rest[j] in multiset(rest);
      assert out[i] in s[..n] && rest[j] in s[n..];
      var c :| 0 <= c < n && s[..n][c] == out[i];
      var d :| 0 <= d < |s| - n && s[n..][d] == rest[j];
      assert leq(s[c], s[n + d]);
    }
    assert SortsTo(leq, s, listed) && out == Take(listed, n);
  }

  /** Two tied elements of a sorted list may change places. */
  lemma SwapTied<T(!new)>(leq: (T, T) -> bool, s: seq<T>, a: nat, b: nat)
    requires TotalPreorder(leq) && Sorted(leq, s) && a < b < |s| && leq(s[b], s[a])
    ensures SortsTo(leq, s, s[a := s[b]][b := s[a]])
  {
    var t := s[a := s[b]][b := s[a]];
    forall i, j | 0 <= i < j < |t| ensures leq(t[i], t[j]) {
      assert i < a ==> leq(s[i], s[a]) && leq(s[i], s[b]);
      assert a < i < b ==> leq(s[a], s[i]) && leq(s[i], s[b]);
      assert a < j < b ==> leq(s[a], s[j]) && leq(s[j], s[b]);
      assert j > b ==> leq(s[b], s[j]) && leq(s[a], s[j]);
      assert leq(s[a], s[a]) && leq(s[b], s[b]) && leq(s[a], s[b]);
    }
  }

  /** A tied element from behind can take the place of one in front. */
  lemma SwapIntoFront<T(!new)>(leq: (T, T) -> bool, s: seq<T>, n: nat, listed: seq<T>, a: nat, b: nat)
    returns (out: seq<T>)
    requires TotalPreorder(leq) && SortsTo(leq, s, listed) && a < n <= b < |listed|
    requires leq(listed[b], listed[a]) && listed[a] != listed[b]
    ensures SortedThenCut(leq, s, n, out) && multiset(out) != multiset(listed[..n])
  {
    var x, y := listed[a], listed[b];
    SwapTied(leq, listed, a, b);
    var swapped := listed[a := y][b := x];
    assert SortsTo(leq, s, swapped);
    out := Take(swapped, n);
    assert out == listed[..n][a := y];
    assert multiset(out)[y] == multiset(listed[..n])[y] + 1;
  }

  /** Where the front is not settled, some sorted listing starts with other rows. */
  lemma FrontMoves<T(!new)>(leq: (T, T) -> bool, s: seq<T>, n: nat) returns (out: seq<T>)
    requires TotalPreorder(leq) && n <= |s| && !SettledFront(leq, s, n)
    ensures SortedThenCut(leq, s, n, out) && multiset(out) != multiset(s[..n])
  {
    var i, j :| 0 <= i < n <= j < |s| && !(leq(s[i], s[j]) && (leq(s[j], s[i]) ==> s[i] == s[j]));
    var listed := SortOf(leq, s);
    SortOfSorts(leq, s);
    PrefixSorts(leq, s, n, listed);
    out := Take(listed, n);
    if multiset(out) == multiset(s[..n]) {
      var a, b := FrontAndBack(s, n, listed, i, j);
      assert leq(listed[a], listed[b]);
      out := SwapIntoFront(leq, s, n, listed, a, b);
    }
  }

  /** Where a listing that starts with the first `n` rows shows one of them, and one of the others. */
  lemma FrontAndBack<T>(s: seq<T>, n: nat, listed: seq<T>, i: nat, j: nat) returns (a: nat, b: nat)
    requires i < n <= j < |s| == |listed|
    requires multiset(s[..n]) == multiset(listed[..n])
    requires forall x ::
      multiset(s[..n])[x] + multiset(s[n..])[x] == multiset(listed[..n])[x] + multiset(listed[n..])[x]
    ensures a < n <= b < |s| && listed[a] == s[i] && listed[b] == s[j]
  {
    assert s[..n][i] in multiset(s[..n]);
    assert s[i] in listed[..n];
    a :| 0 <= a < n && listed[..n][a] == s[i];
    assert s[n..][j - n] in multiset(s[n..]);
    assert multiset(listed[n..])[s[j]] > 0;
    assert s[j] in listed[n..];
    var c :| 0 <= c < |s| - n && listed[n..][c] == s[j];
    b := n + c;
  }

  /** Cutting before or after sorting leaves the same exactly when the front is settled. */
  lemma CutSortIff<T(!new)>(leq: (T, T) -> bool, s: seq<T>, n: nat)
    requires TotalPreorder(leq)
    ensures (forall out :: SortedThenCut(leq, s, n, out) <==> CutThenSorted(leq, s, n, out)) <==>
      n >= |s| || SettledFront(leq, s, n)
  {
    if n >= |s| {
      forall out ensures SortedThenCut(leq, s, n, out) <==> CutThenSorted(leq, s, n, out) {
        AllKept(leq, s, n, out);
      }
    } else if SettledFront(leq, s, n) {
      forall out ensures SortedThenCut(leq, s, n, out) <==> CutThenSorted(leq, s, n, out) {
        if listed :| SortsTo(leq, s, listed) && out == Take(listed, n) {
          FrontStays(leq, s, n, listed);
        }
        if CutThenSorted(leq, s, n, out) { FrontExtends(leq, s, n, out); }
      }
    } else {
      var out := FrontMoves(leq, s, n);
      assert SortedThenCut(leq, s, n, out) && !CutThenSorted(leq, s, n, out);
    }
  }

  lemma AllKept<T(!new)>(leq: (T, T) -> bool, s: seq<T>, n: nat, out: seq<T>)
    requires n >= |s|
    ensures SortedThenCut(leq, s, n, out) <==> CutThenSorted(leq, s, n, out)
  {
    if listed :| SortsTo(leq, s, listed) && out == Take(listed, n) {
      PermutationLength(listed, s);
    }
    if CutThenSorted(leq, s, n, out) {
      PermutationLength(out, s);
      assert SortsTo(leq, s, out) && out == Take(out, n);
    }
  }

  lemma HeadSortPipe(m: Meaning, n: nat, order: seq<SortExpr>, rows: seq<Row>, out: seq<Row>)
    ensures PipeAnswers(m, [Head(n), Sort(order)], rows, out) <==> CutThenSorted(RowLeq(order), rows, n, out)
  {
    var h, s := Head(n), Sort(order);
    assert [h, s] == [h] + [s] && [s] == [s] + [];
    PipeNarrow(m, h, [s], rows, out);
    PipeOne(m, [s], [], Take(rows, n), out);
    assert Does(m, [s][0], Take(rows, n), out) <==> CutThenSorted(RowLeq(order), rows, n, out);
  }

  lemma HeadSortSql(m: Meaning, source: string, n: nat, order: seq<SortExpr>, rows: seq<Row>, out: seq<Row>)
    ensures
      var sql := PplToSql(PplQuery([source], [Head(n), Sort(order)]));
      sql.Ok? && (SqlAnswers(m, sql.value, [rows], out) <==> SortedThenCut(RowLeq(order), rows, n, out))
  {
    var cs := [Head(n), Sort(order)];
    var p := Pipeline(None, None, Some(order), Some(n), None);
    FindSkips([Head(n)], [Sort(order)]);
    FindSkips([Sort(order)], []);
    assert cs == [Head(n)] + [Sort(order)] && [Sort(order)] == [Sort(order)] + [];
    assert PplToSql(PplQuery([source], cs)).value == CanonicalClauses(p, [source]);
    FlattenOne(rows);
    SqlCanonical(m, p, [source], [rows], out);
    forall listed ensures OrderedBy(p.sort, rows, listed) <==> SortsTo(RowLeq(order), rows, listed) {}
  }

  /** `head` before `sort` is applied after it: harmless exactly when there are no more than
      `n` rows, or no later row may come before one of the first `n` unless it is the same. */
  lemma HeadBeforeSortIff(m: Meaning, source: string, n: nat, order: seq<SortExpr>, rows: seq<Row>)
    ensures
      var cs := [Head(n), Sort(order)];
      var sql := PplToSql(PplQuery([source], cs));
      && sql.Ok?
      && (SameAnswers(m, sql.value, cs, rows) <==> n >= |rows| || SettledFront(RowLeq(order), rows, n))
  {
    var cs := [Head(n), Sort(order)];
    HeadSortSql(m, source, n, order, rows, []);
    var sql := PplToSql(PplQuery([source], cs)).value;
    forall out
      ensures SqlAnswers(m, sql, [rows], out) <==> SortedThenCut(RowLeq(order), rows, n, out)
      ensures PipeAnswers(m, cs, rows, out) <==> CutThenSorted(RowLeq(order), rows, n, out)
    {
      HeadSortSql(m, source, n, order, rows, out);
      HeadSortPipe(m, n, order, rows, out);
    }
    RowLeqTotalPreorder(order);
    CutSortIff(RowLeq(order), rows, n);
  }

  // ---- stats before where ---------------------------------------------------

  /** No aggregate takes the name of a key column. */
  ghost predicate KeysVisible(g: Grouping) {
    forall i :: 0 <= i < |g.aggs| ==> AggName(g.aggs[i]) !in g.keys
  }

  lemma {:induction false} AggColumnsHide(m: Meaning, aggs: seq<StatsAgg>, rows: seq<Row>, name: string)
    requires forall i :: 0 <= i < |aggs| ==> AggName(aggs[i]) != name
    ensures name !in AggColumns(m, aggs, rows)
  {
    if aggs != [] { AggColumnsHide(m, aggs[..|aggs| - 1], rows, name); }
  }

  /** A group's row shows the group's key, whatever its rows. */
  lemma GroupKeyShows(m: Meaning, g: Grouping, rows: seq<Row>, some: seq<Row>, k: DedupKey)
    requires KeysVisible(g) && HasKey(g.keys, some, k)
    ensures KeyOf(g.keys, GroupRow(m, g, rows)(k)) == k
  {
    var i :| 0 <= i < |some| && KeyOf(g.keys, some[i]) == k;
    KeyColumnsOf(g.keys, some[i]);
    var aggs := AggColumns(m, g.aggs, Filter(InGroup(g.keys, k), rows));
    var r := GroupRow(m, g, rows)(k);
    assert r == KeyColumns(g.keys, k) + aggs;
    forall j | 0 <= j < |g.keys| ensures Column(r, g.keys[j]) == k[j] {
      assert g.keys[j] in g.keys;
      AggColumnsHide(m, g.aggs, Filter(InGroup(g.keys, k), rows), g.keys[j]);
    }
  }

  /** The keys of some rows can be listed. */
  lemma {:induction false} ListKeys(keys: seq<string>, rows: seq<Row>) returns (ks: seq<DedupKey>)
    ensures KeysListed(keys, rows, ks)
  {
    if rows == [] {
      ks := [];
    } else {
      var front, last := rows[..|rows| - 1], rows[|rows| - 1];
      ks := ListKeys(keys, front);
      assert rows == front + [last];
      forall k ensures HasKey(keys, rows, k) <==> HasKey(keys, front, k) || KeyOf(keys, last) == k {
        HasKeySnoc(keys, front, last, k);
      }
      if KeyOf(keys, last) !in ks { ks := ks + [KeyOf(keys, last)]; }
    }
  }

  /** Group by group: the predicate holds of a group's row exactly when it holds of one of
      its rows, and then the rows that fail it do not change the group's row. */
  ghost predicate SameGroups(m: Meaning, g: Grouping, expr: string, rows: seq<Row>) {
    var kept := Filter(m.Test(expr), rows);
    forall k :: HasKey(g.keys, rows, k) ==>
      if HasKey(g.keys, kept, k) then
        m.holds(expr, GroupRow(m, g, rows)(k)) && GroupRow(m, g, kept)(k) == GroupRow(m, g, rows)(k)
      else !m.holds(expr, GroupRow(m, g, rows)(k))
  }

  /** The same when all rows are one group, which is there even without rows. */
  predicate SameTotal(m: Meaning, g: Grouping, expr: string, rows: seq<Row>) {
    var all := AggColumns(m, g.aggs, rows);
    m.holds(expr, all) && AggColumns(m, g.aggs, Filter(m.Test(expr), rows)) == all
  }

  /** What `stats` and then `where` answer. */
  ghost predicate GroupedThenFiltered(m: Meaning, g: Grouping, expr: string, rows: seq<Row>, out: seq<Row>) {
    exists groups :: Grouped(m, g, rows, groups) && out == Filter(m.Test(expr), groups)
  }

  lemma {:induction false} FilterMap<A, B>(p: B -> bool, f: A -> B, q: A -> bool, s: seq<A>)
    requires forall i :: 0 <= i < |s| ==> q(s[i]) == p(f(s[i]))
    ensures Filter(p, Map(f, s)) == Map(f, Filter(q, s))
  {
    if s != [] {
      var n := |s| - 1;
      FilterMap(p, f, q, s[..n]);
      assert Map(f, s)[..n] == Map(f, s[..n]);
      MapAppend(f, Filter(q, s[..n]), [s[n]]);
    }
  }

  function Holding(m: Meaning, g: Grouping, expr: string, rows: seq<Row>): DedupKey -> bool {
    k => m.holds(expr, GroupRow(m, g, rows)(k))
  }

  function Negation<T>(p: T -> bool): T -> bool { x => !p(x) }

  lemma FilterGroups(m: Meaning, g: Grouping, expr: string, rows: seq<Row>, ks: seq<DedupKey>)
    ensures
      Filter(m.Test(expr), Map(GroupRow(m, g, rows), ks)) ==
        Map(GroupRow(m, g, rows), Filter(Holding(m, g, expr, rows), ks))
  {
    FilterMap(m.Test(expr), GroupRow(m, g, rows), Holding(m, g, expr, rows), ks);
  }

  lemma KeptKey(m: Meaning, keys: seq<string>, expr: string, rows: seq<Row>, k: DedupKey)
    requires HasKey(keys, Filter(m.Test(expr), rows), k)
    ensures HasKey(keys, rows, k)
  {
    var kept := Filter(m.Test(expr), rows);
    var i :| 0 <= i < |kept| && KeyOf(keys, kept[i]) == k;
    FilterMember(m.Test(expr), rows, kept[i]);
    var j :| 0 <= j < |rows| && rows[j] == kept[i];
  }

  /** The groups that pass, listed in any order of all of them, list the groups of the rows that pass. */
  lemma PassingKeys(m: Meaning, g: Grouping, expr: string, rows: seq<Row>, ks: seq<DedupKey>)
    requires SameGroups(m, g, expr, rows) && KeysListed(g.keys, rows, ks)
    ensures KeysListed(g.keys, Filter(m.Test(expr), rows), Filter(Holding(m, g, expr, rows), ks))
  {
    var kept, holding := Filter(m.Test(expr), rows), Holding(m, g, expr, rows);
    FilterDistinct(holding, ks);
    forall k ensures k in Filter(holding, ks) <==> HasKey(g.keys, kept, k) {
      FilterMember(holding, ks, k);
      if HasKey(g.keys, kept, k) { KeptKey(m, g.keys, expr, rows, k); }
    }
  }

  lemma SameGroupRows(m: Meaning, g: Grouping, expr: string, rows: seq<Row>, ks: seq<DedupKey>)
    requires SameGroups(m, g, expr, rows) && KeysListed(g.keys, Filter(m.Test(expr), rows), ks)
    ensures Map(GroupRow(m, g, Filter(m.Test(expr), rows)), ks) == Map(GroupRow(m, g, rows), ks)
    ensures Filter(Holding(m, g, expr, rows), ks) == ks
  {
    var kept := Filter(m.Test(expr), rows);
    forall i | 0 <= i < |ks|
      ensures GroupRow(m, g, kept)(ks[i]) == GroupRow(m, g, rows)(ks[i]) && Holding(m, g, expr, rows)(ks[i])
    {
      assert ks[i] in ks;
      KeptKey(m, g.keys, expr, rows, ks[i]);
    }
    FilterAllIff(Holding(m, g, expr, rows), ks);
  }

  /** Any listing of the groups of the rows that pass can be continued to one of all groups. */
  lemma ContinueListing(m: Meaning, g: Grouping, expr: string, rows: seq<Row>, ks: seq<DedupKey>)
    returns (all: seq<DedupKey>)
    requires SameGroups(m, g, expr, rows) && KeysListed(g.keys, Filter(m.Test(expr), rows), ks)
    ensures KeysListed(g.keys, rows, all) && Filter(Holding(m, g, expr, rows), all) == ks
  {
    var holding := Holding(m, g, expr, rows);
    var listed := ListKeys(g.keys, rows);
    var rest := Filter(Negation(holding), listed);
    all := ks + rest;
    SameGroupRows(m, g, expr, rows, ks);
    FilterDistinct(Negation(holding), listed);
    forall k ensures k in rest <==> HasKey(g.keys, rows, k) && !holding(k) {
      FilterMember(Negation(holding), listed, k);
    }
    forall k ensures k in ks <==> HasKey(g.keys, rows, k) && holding(k) {
      if k in ks { KeptKey(m, g.keys, expr, rows, k); }
    }
    ContinuedListed(g.keys, rows, holding, ks, rest);
    OnlyFront(holding, ks, rest);
  }

  lemma OnlyFront<T>(p: T -> bool, a: seq<T>, b: seq<T>)
    requires Filter(p, a) == a && forall x :: x in b ==> !p(x)
    ensures Filter(p, a + b) == a
  {
    FilterAppend(p, a, b);
    assert forall i :: 0 <= i < |b| ==> b[i] in b;
    FilterNoneIff(p, b);
  }

  lemma ContinuedListed(keys: seq<string>, rows: seq<Row>, holding: DedupKey -> bool, ks: seq<DedupKey>,
                        rest: seq<DedupKey>)
    requires NoDuplicates(ks) && NoDuplicates(rest)
    requires forall k :: k in ks <==> HasKey(keys, rows, k) && holding(k)
    requires forall k :: k in rest <==> HasKey(keys, rows, k) && !holding(k)
    ensures KeysListed(keys, rows, ks + rest)
  {
    forall i, j | 0 <= i < |ks| && 0 <= j < |rest| ensures ks[i] != rest[j] {
      assert ks[i] in ks && rest[j] in rest;
    }
  }

  /** With the same groups, filtering first or last has the same answers. */
  lemma SameGroupsAnswer(m: Meaning, g: Grouping, expr: string, rows: seq<Row>, out: seq<Row>)
    requires g.keys != [] && SameGroups(m, g, expr, rows)
    ensures Grouped(m, g, Filter(m.Test(expr), rows), out) <==> GroupedThenFiltered(m, g, expr, rows, out)
  {
    var kept := Filter(m.Test(expr), rows);
    if Grouped(m, g, kept, out) {
      var ks :| KeysListed(g.keys, kept, ks) && out == Map(GroupRow(m, g, kept), ks);
      SameGroupRows(m, g, expr, rows, ks);
      var all := ContinueListing(m, g, expr, rows, ks);
      FilterGroups(m, g, expr, rows, all);
      assert Grouped(m, g, rows, Map(GroupRow(m, g, rows), all));
    }
    if groups :| Grouped(m, g, rows, groups) && out == Filter(m.Test(expr), groups) {
      var ks :| KeysListed(g.keys, rows, ks) && groups == Map(GroupRow(m, g, rows), ks);
      FilterGroups(m, g, expr, rows, ks);
      PassingKeys(m, g, expr, rows, ks);
      SameGroupRows(m, g, expr, rows, Filter(Holding(m, g, expr, rows), ks));
    }
  }

  /** One answer in common already means the groups are the same. */
  lemma CommonAnswer(m: Meaning, g: Grouping, expr: string, rows: seq<Row>, out: seq<Row>)
    requires g.keys != [] && KeysVisible(g)
    requires Grouped(m, g, Filter(m.Test(expr), rows), out) && GroupedThenFiltered(m, g, expr, rows, out)
    ensures SameGroups(m, g, expr, rows)
  {
    var kept := Filter(m.Test(expr), rows);
    var part :| KeysListed(g.keys, kept, part) && out == Map(GroupRow(m, g, kept), part);
    var groups :| Grouped(m, g, rows, groups) && out == Filter(m.Test(expr), groups);
    var all :| KeysListed(g.keys, rows, all) && groups == Map(GroupRow(m, g, rows), all);
    FilterGroups(m, g, expr, rows, all);
    var passing := Filter(Holding(m, g, expr, rows), all);
    SameListing(m, g, expr, rows, part, passing, all);
    forall k | HasKey(g.keys, rows, k) ensures
      if HasKey(g.keys, kept, k) then
        m.holds(expr, GroupRow(m, g, rows)(k)) && GroupRow(m, g, kept)(k) == GroupRow(m, g, rows)(k)
      else !m.holds(expr, GroupRow(m, g, rows)(k))
    {
      FilterMember(Holding(m, g, expr, rows), all, k);
      if k in part {
        var i :| 0 <= i < |part| && part[i] == k;
        assert Map(GroupRow(m, g, kept), part)[i] == Map(GroupRow(m, g, rows), passing)[i];
      }
    }
  }

  lemma SameListing(m: Meaning, g: Grouping, expr: string, rows: seq<Row>, part: seq<DedupKey>, passing: seq<DedupKey>,
                    all: seq<DedupKey>)
    requires KeysVisible(g) && KeysListed(g.keys, Filter(m.Test(expr), rows), part)
    requires KeysListed(g.keys, rows, all) && passing == Filter(Holding(m, g, expr, rows), all)
    requires Map(GroupRow(m, g, Filter(m.Test(expr), rows)), part) == Map(GroupRow(m, g, rows), passing)
    ensures part == passing
  {
    var kept := Filter(m.Test(expr), rows);
    var a, b := Map(GroupRow(m, g, kept), part), Map(GroupRow(m, g, rows), passing);
    assert |part| == |a| == |b| == |passing|;
    forall i | 0 <= i < |part| ensures part[i] == passing[i] {
      assert part[i] in part && passing[i] in passing;
      FilterMember(Holding(m, g, expr, rows), all, passing[i]);
      GroupKeyShows(m, g, kept, kept, part[i]);
      GroupKeyShows(m, g, rows, rows, passing[i]);
      assert a[i] == b[i];
    }
  }

  lemma StatsWherePipe(m: Meaning, g: Grouping, expr: string, rows: seq<Row>, out: seq<Row>)
    ensures PipeAnswers(m, [Stats(g), Where(expr)], rows, out) <==> GroupedThenFiltered(m, g, expr, rows, out)
  {
    var s, w := Stats(g), Where(expr);
    assert [s, w] == [s] + [w] && [w] == [w] + [];
    PipeOne(m, [s], [w], rows, out);
    forall mid ensures PipeAnswers(m, [w], mid, out) <==> out == Filter(m.Test(expr), mid) {
      PipeNarrow(m, w, [], mid, out);
    }
    forall mid ensures Does(m, [s][0], rows, mid) <==> Grouped(m, g, rows, mid) {}
  }

  lemma StatsWhereSql(m: Meaning, source: string, g: Grouping, expr: string, rows: seq<Row>, out: seq<Row>)
    requires g.aggs != []
    ensures
      var sql := PplToSql(PplQuery([source], [Stats(g), Where(expr)]));
      sql.Ok? && (SqlAnswers(m, sql.value, [rows], out) <==> Grouped(m, g, Filter(m.Test(expr), rows), out))
  {
    var cs := [Stats(g), Where(expr)];
    var p := Pipeline(Some(expr), Some(g), None, None, None);
    FindSkips([Stats(g)], [Where(expr)]);
    FindSkips([Where(expr)], []);
    assert cs == [Stats(g)] + [Where(expr)] && [Where(expr)] == [Where(expr)] + [];
    var sql := PplToSql(PplQuery([source], cs)).value;
    assert sql == CanonicalClauses(p, [source]);
    AggregateSql(m, sql, g, rows, out);
    assert OrderedBy(None, out, out);
  }

  /** `stats` before `where` is applied after it: harmless exactly when the groups stay the
      same, or, with a single group, when it passes and does not change. */
  lemma StatsBeforeWhereIff(m: Meaning, source: string, g: Grouping, expr: string, rows: seq<Row>)
    requires g.aggs != [] && KeysVisible(g)
    ensures
      var cs := [Stats(g), Where(expr)];
      var sql := PplToSql(PplQuery([source], cs));
      && sql.Ok?
      && (SameAnswers(m, sql.value, cs, rows) <==>
            if g.keys == [] then SameTotal(m, g, expr, rows) else SameGroups(m, g, expr, rows))
  {
    var cs, kept := [Stats(g), Where(expr)], Filter(m.Test(expr), rows);
    StatsWhereSql(m, source, g, expr, rows, []);
    var sql := PplToSql(PplQuery([source], cs)).value;
    forall out
      ensures SqlAnswers(m, sql, [rows], out) <==> Grouped(m, g, kept, out)
      ensures PipeAnswers(m, cs, rows, out) <==> GroupedThenFiltered(m, g, expr, rows, out)
    {
      StatsWhereSql(m, source, g, expr, rows, out);
      StatsWherePipe(m, g, expr, rows, out);
    }
    if g.keys == [] {
      OneGroup(m, g, expr, rows);
    } else {
      if SameGroups(m, g, expr, rows) {
        forall out ensures Grouped(m, g, kept, out) <==> GroupedThenFiltered(m, g, expr, rows, out) {
          SameGroupsAnswer(m, g, expr, rows, out);
        }
      }
      if SameAnswers(m, sql, cs, rows) {
        var ks := ListKeys(g.keys, kept);
        var out := Map(GroupRow(m, g, kept), ks);
        assert Grouped(m, g, kept, out);
        CommonAnswer(m, g, expr, rows, out);
      }
    }
  }

  lemma OneGroup(m: Meaning, g: Grouping, expr: string, rows: seq<Row>)
    requires g.keys == []
    ensures
      (forall out :: Grouped(m, g, Filter(m.Test(expr), rows), out) <==>
        GroupedThenFiltered(m, g, expr, rows, out)) <==>
      SameTotal(m, g, expr, rows)
  {
    var all, part := AggColumns(m, g.aggs, rows), AggColumns(m, g.aggs, Filter(m.Test(expr), rows));
    assert [all][..0] == [];
    var left := if m.holds(expr, all) then [all] else [];
    assert Filter(m.Test(expr), [all]) == left;
    forall out ensures GroupedThenFiltered(m, g, expr, rows, out) <==> out == left {
      assert Grouped(m, g, rows, [all]);
    }
    assert Grouped(m, g, Filter(m.Test(expr), rows), [part]);
  }
}
