/** A page of a DISTINCT result: the sources cut their rows before duplicates are removed. */
module DistinctPage {
  import opened Base
  import opened Values
  import opened Sorting
  import opened RowOrder
  import opened Merger
  import opened DedupOrder

  /** Every key of `b` is a key of `a`. */
  ghost predicate KeysWithin(cols: seq<string>, b: seq<Row>, a: seq<Row>) {
    forall k :: HasKey(cols, b, k) ==> HasKey(cols, a, k)
  }

  predicate SameKeyAt(cols: seq<string>, a: seq<Row>, b: seq<Row>, i: nat) {
    i < |a| && i < |b| && KeyOf(cols, a[i]) == KeyOf(cols, b[i])
  }

  lemma KeyFound(cols: seq<string>, rows: seq<Row>, k: DedupKey) returns (p: nat)
    requires HasKey(cols, rows, k)
    ensures p < |rows| && KeyOf(cols, rows[p]) == k
  {
    p :| p < |rows| && KeyOf(cols, rows[p]) == k;
  }

  lemma KeyPosition(cols: seq<string>, a: seq<Row>, b: seq<Row>, i: nat) returns (p: nat)
    requires KeysWithin(cols, b, a) && i < |b|
    ensures p < |a| && KeyOf(cols, a[p]) == KeyOf(cols, b[i])
  {
    assert HasKey(cols, b, KeyOf(cols, b[i]));
    p := KeyFound(cols, a, KeyOf(cols, b[i]));
  }

  /** Of two increasing lists, positions go up with keys. */
  lemma PositionsFollow(cols: seq<string>, a: seq<Row>, b: seq<Row>, p: nat, q: nat, i: nat, j: nat)
    requires StrictlyIncreasing(cols, a) && StrictlyIncreasing(cols, b)
    requires p < |a| && q < |a| && i < j < |b|
    requires KeyOf(cols, a[p]) == KeyOf(cols, b[i]) && KeyOf(cols, a[q]) == KeyOf(cols, b[j])
    ensures p < q
  {
    var order := Ascending(cols);
    AscendingFields(cols);
    KeyDecidesOrder(cols, order, a[p], a[q], b[i], b[j]);
    assert CompareRows(order, a[p], a[q]).Less?;
    CompareRowsReverse(order, a[q], a[p]);
    SameKeyEqual(cols, a[p], a[p]);
  }

  /** A key stands no further back among fewer keys. */
  lemma {:induction false} NoFurtherBack(cols: seq<string>, a: seq<Row>, b: seq<Row>, p: nat, i: nat)
    requires StrictlyIncreasing(cols, a) && StrictlyIncreasing(cols, b) && KeysWithin(cols, b, a)
    requires p < |a| && i < |b| && KeyOf(cols, a[p]) == KeyOf(cols, b[i])
    ensures i <= p
    decreases i
  {
    if i > 0 {
      var q := KeyPosition(cols, a, b, i - 1);
      NoFurtherBack(cols, a, b, q, i - 1);
      PositionsFollow(cols, a, b, q, p, i - 1, i);
    }
  }

  /** Where one position agrees, all before it do. */
  lemma {:induction false} AgreeBefore(cols: seq<string>, a: seq<Row>, b: seq<Row>, i: nat, j: nat)
    requires StrictlyIncreasing(cols, a) && StrictlyIncreasing(cols, b) && KeysWithin(cols, b, a)
    requires i <= j && SameKeyAt(cols, a, b, j)
    ensures SameKeyAt(cols, a, b, i)
    decreases j - i
  {
    if i < j {
      AgreeBefore(cols, a, b, i + 1, j);
      var p := KeyPosition(cols, a, b, i);
      NoFurtherBack(cols, a, b, p, i);
      PositionsFollow(cols, a, b, p, i + 1, i, i + 1);
    }
  }

  /** Where all the first keys are there, they stand at the same positions. */
  lemma {:induction false} AgreeSoFar(cols: seq<string>, a: seq<Row>, b: seq<Row>, i: nat)
    requires StrictlyIncreasing(cols, a) && StrictlyIncreasing(cols, b) && KeysWithin(cols, b, a)
    requires i < |a| && forall j :: 0 <= j <= i ==> HasKey(cols, b, KeyOf(cols, a[j]))
    ensures SameKeyAt(cols, a, b, i)
  {
    var q := KeyFound(cols, b, KeyOf(cols, a[i]));
    NoFurtherBack(cols, a, b, i, q);
    if i > 0 {
      AgreeSoFar(cols, a, b, i - 1);
      PositionsFollow(cols, b, a, i - 1, q, i - 1, i);
    }
  }

  /** With all the keys of `a`, `b` is no longer than `a`. */
  lemma NoLonger(cols: seq<string>, a: seq<Row>, b: seq<Row>)
    requires StrictlyIncreasing(cols, a) && StrictlyIncreasing(cols, b) && KeysWithin(cols, b, a)
    ensures |b| <= |a|
  {
    if b != [] {
      var p := KeyPosition(cols, a, b, |b| - 1);
      NoFurtherBack(cols, a, b, p, |b| - 1);
    }
  }

  // ---- The page -------------------------------------------------------------

  /** The rows down to the page's end. */
  function PageEnd(all: seq<Row>, offset: nat, limit: Option<nat>): nat {
    if limit.Some? && offset + limit.value <= |all| then offset + limit.value else |all|
  }

  /** The page is empty anyway, or every distinct row down to its end reached the merge. */
  ghost predicate PageCovered(cols: seq<string>, all: seq<Row>, fetched: seq<Row>, offset: nat, limit: Option<nat>) {
    || limit == Some(0)
    || |all| <= offset
    || forall i :: 0 <= i < PageEnd(all, offset, limit) ==> HasKey(cols, fetched, KeyOf(cols, all[i]))
  }

  /** The page of the distinct rows that were fetched is the page of all distinct rows exactly
      when every distinct row down to the page's end was fetched, or the page is empty. */
  lemma DistinctPageIff(cols: seq<string>, rows: seq<Row>, fetched: seq<Row>, all: seq<Row>, out: seq<Row>,
                        offset: nat, limit: Option<nat>)
    requires OneType(cols, rows) && OneType(cols, fetched) && KeysWithin(cols, fetched, rows)
    requires Deduped(cols, rows, all) && Deduped(cols, fetched, out)
    ensures KeysOf(cols, Window(out, offset, limit)) == KeysOf(cols, Window(all, offset, limit)) <==>
      PageCovered(cols, all, fetched, offset, limit)
  {
    DedupedMeaning(cols, rows, all);
    DedupedMeaning(cols, fetched, out);
    NoLonger(cols, all, out);
    if limit != Some(0) && |all| > offset {
      if PageCovered(cols, all, fetched, offset, limit) { CoveredPage(cols, all, out, offset, limit); }
      if KeysOf(cols, Window(out, offset, limit)) == KeysOf(cols, Window(all, offset, limit)) {
        RightPage(cols, all, out, offset, limit);
      }
    }
  }

  lemma CoveredPage(cols: seq<string>, all: seq<Row>, out: seq<Row>, offset: nat, limit: Option<nat>)
    requires StrictlyIncreasing(cols, all) && StrictlyIncreasing(cols, out) && KeysWithin(cols, out, all)
    requires |out| <= |all| && offset < |all|
    requires forall i :: 0 <= i < PageEnd(all, offset, limit) ==> HasKey(cols, out, KeyOf(cols, all[i]))
    ensures KeysOf(cols, Window(out, offset, limit)) == KeysOf(cols, Window(all, offset, limit))
  {
    forall i: nat | i < PageEnd(all, offset, limit) ensures SameKeyAt(cols, all, out, i) {
      AgreeSoFar(cols, all, out, i);
    }
    assert PageEnd(all, offset, limit) > 0 ==> SameKeyAt(cols, all, out, PageEnd(all, offset, limit) - 1);
    var a, b := Window(all, offset, limit), Window(out, offset, limit);
    assert |a| == |b| == PageEnd(all, offset, limit) - offset;
    forall i | 0 <= i < |a| ensures KeyOf(cols, a[i]) == KeyOf(cols, b[i]) {
      assert SameKeyAt(cols, all, out, offset + i);
    }
  }

  lemma RightPage(cols: seq<string>, all: seq<Row>, out: seq<Row>, offset: nat, limit: Option<nat>)
    requires StrictlyIncreasing(cols, all) && StrictlyIncreasing(cols, out) && KeysWithin(cols, out, all)
    requires limit != Some(0) && offset < |all|
    requires KeysOf(cols, Window(out, offset, limit)) == KeysOf(cols, Window(all, offset, limit))
    ensures forall i :: 0 <= i < PageEnd(all, offset, limit) ==> HasKey(cols, out, KeyOf(cols, all[i]))
  {
    var a, b, end := Window(all, offset, limit), Window(out, offset, limit), PageEnd(all, offset, limit);
    assert |a| == end - offset && |b| == |KeysOf(cols, b)| == |a| > 0;
    var last := |a| - 1;
    assert KeysOf(cols, a)[last] == KeysOf(cols, b)[last];
    assert SameKeyAt(cols, all, out, end - 1);
    forall i: nat | i < end ensures HasKey(cols, out, KeyOf(cols, all[i])) {
      AgreeBefore(cols, all, out, i, end - 1);
    }
  }

  // ---- For every content ----------------------------------------------------

  /** Whatever the sources hold, and however each sort breaks its ties, sources that send their
      first `n` rows give the page of the distinct rows of their union. */
  ghost predicate DistinctAlwaysRight(cols: seq<string>, n: Option<nat>, offset: nat, limit: Option<nat>) {
    forall sources: seq<seq<Row>>, fetched: seq<seq<Row>>, all: seq<Row>, out: seq<Row> ::
      DistinctRun(cols, n, sources, fetched, all, out) ==>
        KeysOf(cols, Window(out, offset, limit)) == KeysOf(cols, Window(all, offset, limit))
  }

  ghost predicate DistinctRun(cols: seq<string>, n: Option<nat>, sources: seq<seq<Row>>, fetched: seq<seq<Row>>,
                              all: seq<Row>, out: seq<Row>) {
    && ServedUnsorted(n, sources, fetched) && OneType(cols, Flatten(sources))
    && Deduped(cols, Flatten(sources), all) && Deduped(cols, Flatten(fetched), out)
  }

  /** The `i`-th of rows with increasing keys. */
  function Numbered(cols: seq<string>, i: nat): Row
    requires cols != []
  {
    map[cols[0] := Int64(i)]
  }

  function NumberedUpTo(cols: seq<string>, m: nat): (rows: seq<Row>)
    requires cols != []
    ensures |rows| == m && forall i :: 0 <= i < m ==> rows[i] == Numbered(cols, i)
  {
    seq(m, i requires 0 <= i < m => Numbered(cols, i))
  }

  lemma NumberedIncrease(cols: seq<string>, m: nat)
    requires cols != []
    ensures StrictlyIncreasing(cols, NumberedUpTo(cols, m))
  {
    forall i, j | 0 <= i < j < m ensures CompareRows(Ascending(cols), Numbered(cols, i), Numbered(cols, j)).Less? {
      assert Column(Numbered(cols, i), cols[0]) == Int64(i) && Column(Numbered(cols, j), cols[0]) == Int64(j);
      assert Ascending(cols)[0] == SortExpr(cols[0], false);
    }
  }

  /** One source: enough copies of the last row to fill the cut, then all the rows. */
  function Flooded(cols: seq<string>, n: nat, m: nat): seq<Row>
    requires cols != [] && m > 0
  {
    Copies(Numbered(cols, m - 1), n) + NumberedUpTo(cols, m)
  }

  lemma FloodedAt(cols: seq<string>, n: nat, m: nat, i: nat) returns (j: nat)
    requires cols != [] && m > 0 && i < |Flooded(cols, n, m)|
    ensures j < m && Flooded(cols, n, m)[i] == Numbered(cols, j)
  {
    j := if i < n then m - 1 else i - n;
  }

  lemma FloodedOneType(cols: seq<string>, n: nat, m: nat)
    requires cols != [] && m > 0
    ensures OneType(cols, Flooded(cols, n, m))
  {
    var rows := Flooded(cols, n, m);
    forall i, j, c | 0 <= i < |rows| && 0 <= j < |rows| && c in cols
      ensures SameOrDifferent(Column(rows[i], c), Column(rows[j], c))
    {
      var a := FloodedAt(cols, n, m, i);
      var b := FloodedAt(cols, n, m, j);
    }
  }

  lemma FloodedKeys(cols: seq<string>, n: nat, m: nat, k: DedupKey)
    requires cols != [] && m > 0
    ensures HasKey(cols, Flooded(cols, n, m), k) <==> HasKey(cols, NumberedUpTo(cols, m), k)
  {
    var rows, ups := Flooded(cols, n, m), NumberedUpTo(cols, m);
    if HasKey(cols, rows, k) {
      var i: nat :| i < |rows| && KeyOf(cols, rows[i]) == k;
      var j := FloodedAt(cols, n, m, i);
      assert KeyOf(cols, ups[j]) == k;
    }
    if HasKey(cols, ups, k) {
      var j :| 0 <= j < |ups| && KeyOf(cols, ups[j]) == k;
      assert KeyOf(cols, rows[n + j]) == k;
    }
  }

  lemma SomeDedup(cols: seq<string>, rows: seq<Row>) returns (out: seq<Row>)
    ensures Deduped(cols, rows, out)
  {
    var leq := RowLeq(Ascending(cols));
    RowLeqTotalPreorder(Ascending(cols));
    SortOfSorts(leq, rows);
    out := FirstOfRuns(cols, SortOf(leq, rows));
  }

  lemma FloodedDeduped(cols: seq<string>, n: nat, m: nat, all: seq<Row>)
    requires cols != [] && m > 0 && Deduped(cols, Flooded(cols, n, m), all)
    ensures |all| == m && KeyOf(cols, all[0]) == KeyOf(cols, Numbered(cols, 0))
  {
    var ups := NumberedUpTo(cols, m);
    FloodedOneType(cols, n, m);
    NumberedIncrease(cols, m);
    DedupedMeaning(cols, Flooded(cols, n, m), all);
    forall k ensures HasKey(cols, all, k) <==> HasKey(cols, ups, k) { FloodedKeys(cols, n, m, k); }
    IncreasingUnique(cols, all, ups);
    assert |KeysOf(cols, all)| == |KeysOf(cols, ups)| == m;
    assert KeysOf(cols, all)[0] == KeysOf(cols, ups)[0];
  }

  lemma FloodedRun(cols: seq<string>, n: nat, m: nat, all: seq<Row>, out: seq<Row>)
    requires cols != [] && m > 0
    requires Deduped(cols, Flooded(cols, n, m), all) && Deduped(cols, Copies(Numbered(cols, m - 1), n), out)
    ensures DistinctRun(cols, Some(n), [Flooded(cols, n, m)], [Copies(Numbered(cols, m - 1), n)], all, out)
  {
    var rows, cut := Flooded(cols, n, m), Copies(Numbered(cols, m - 1), n);
    FlattenOne(rows);
    FlattenOne(cut);
    FloodedOneType(cols, n, m);
    assert FirstRowsOf(n, rows, cut);
  }

  /** Copies of one row crowd out the least row of the source. */
  lemma CopiesCrowdOut(cols: seq<string>, n: nat, offset: nat, limit: Option<nat>)
    requires cols != [] && limit != Some(0)
    ensures !DistinctAlwaysRight(cols, Some(n), offset, limit)
  {
    var m := offset + 2;
    var rows, cut := Flooded(cols, n, m), Copies(Numbered(cols, m - 1), n);
    var all := SomeDedup(cols, rows);
    var out := SomeDedup(cols, cut);
    FloodedRun(cols, n, m, all, out);
    FloodedOneType(cols, n, m);
    CutKeys(cols, rows, cut);
    DistinctPageIff(cols, rows, cut, all, out, offset, limit);
    FloodedDeduped(cols, n, m, all);
    LeastNotCopied(cols, n, m);
  }

  lemma LeastNotCopied(cols: seq<string>, n: nat, m: nat)
    requires cols != [] && m > 1
    ensures !HasKey(cols, Copies(Numbered(cols, m - 1), n), KeyOf(cols, Numbered(cols, 0)))
  {
    assert KeyOf(cols, Numbered(cols, 0))[0] == Int64(0) && KeyOf(cols, Numbered(cols, m - 1))[0] == Int64(m - 1);
  }

  /** The first rows of a list bring no new key and no new type. */
  lemma CutKeys(cols: seq<string>, rows: seq<Row>, cut: seq<Row>)
    requires OneType(cols, rows) && forall x :: x in cut ==> x in rows
    ensures OneType(cols, cut) && KeysWithin(cols, cut, rows)
  {
    forall k | HasKey(cols, cut, k) ensures HasKey(cols, rows, k) {
      var i :| 0 <= i < |cut| && KeyOf(cols, cut[i]) == k;
      assert cut[i] in rows;
      HasKeyOf(cols, rows, cut[i]);
    }
    forall i, j, c | 0 <= i < |cut| && 0 <= j < |cut| && c in cols
      ensures SameOrDifferent(Column(cut[i], c), Column(cut[j], c))
    {
      assert cut[i] in rows && cut[j] in rows;
    }
  }

  /** DISTINCT with a LIMIT: a page is right for every content of the sources exactly when they
      are not cut, or no row is wanted.  No number of rows is enough otherwise. */
  lemma DistinctAlwaysRightIff(cols: seq<string>, n: Option<nat>, offset: nat, limit: Option<nat>)
    requires cols != []
    ensures DistinctAlwaysRight(cols, n, offset, limit) <==> n.None? || limit == Some(0)
  {
    if n.None? {
      forall sources: seq<seq<Row>>, fetched: seq<seq<Row>>, all: seq<Row>, out: seq<Row> |
        DistinctRun(cols, n, sources, fetched, all, out)
        ensures KeysOf(cols, Window(out, offset, limit)) == KeysOf(cols, Window(all, offset, limit))
      {
        UncutPage(cols, Flatten(sources), all, out, offset, limit);
      }
    } else if limit != Some(0) {
      CopiesCrowdOut(cols, n.value, offset, limit);
    }
  }

  lemma UncutPage(cols: seq<string>, rows: seq<Row>, all: seq<Row>, out: seq<Row>, offset: nat, limit: Option<nat>)
    requires OneType(cols, rows) && Deduped(cols, rows, all) && Deduped(cols, rows, out)
    ensures KeysOf(cols, Window(out, offset, limit)) == KeysOf(cols, Window(all, offset, limit))
  {
    DedupedMeaning(cols, rows, all);
    forall i | 0 <= i < |all| ensures HasKey(cols, rows, KeyOf(cols, all[i])) { HasKeyOf(cols, all, all[i]); }
    DistinctPageIff(cols, rows, rows, all, out, offset, limit);
  }
}
