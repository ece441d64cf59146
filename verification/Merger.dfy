/** Deduplication of merged results: sort by the dedup columns, keep the first row of each
    run of equal keys. */
module Merger {
  import opened Base
  import opened Values
  import opened Sorting
  import opened RowOrder

  type DedupKey = seq<ScalarValue>

  function KeyOf(cols: seq<string>, row: Row): (k: DedupKey)
    ensures |k| == |cols|
  {
    Map(c => Column(row, c), cols)
  }

  /** The sort the code asks for: all columns ascending, nulls first. */
  function Ascending(cols: seq<string>): (s: seq<SortExpr>)
    ensures |s| == |cols| && forall i :: 0 <= i < |cols| ==> s[i] == SortExpr(cols[i], false)
  {
    Map(c => SortExpr(c, false), cols)
  }

  /** Within a column, values that compare equal are equal: it holds one type. */
  ghost predicate OneType(cols: seq<string>, rows: seq<Row>) {
    forall i, j, c :: 0 <= i < |rows| && 0 <= j < |rows| && c in cols ==>
      SameOrDifferent(Column(rows[i], c), Column(rows[j], c))
  }

  predicate SameOrDifferent(a: ScalarValue, b: ScalarValue) { CompareTotal(a, b).Equal? ==> a == b }

  // ---- The code -------------------------------------------------------------

  /** `lexsort_to_indices` and `take`: any sorted permutation of the rows. */
  type LexSort = (seq<SortExpr>, seq<Row>) -> seq<Row>

  method DedupBatches(batches: seq<seq<Row>>, schema: seq<string>, cols: seq<string>, lexsort: LexSort)
    returns (r: Outcome<seq<Row>>)
    requires cols != [] ==>
      SortsTo(RowLeq(Ascending(cols)), Flatten(batches), lexsort(Ascending(cols), Flatten(batches)))
    ensures r ==
      if batches == [] || cols == [] then Ok(Flatten(batches))
      else if !(forall i :: 0 <= i < |cols| ==> cols[i] in schema) then Err("dedup column not found")
      else Ok(FirstOfRuns(cols, lexsort(Ascending(cols), Flatten(batches))))
  {
    if batches == [] || cols == [] {
      return Ok(Flatten(batches));
    }
    var merged := Flatten(batches);
    for i := 0 to |cols|
      invariant forall k :: 0 <= k < i ==> cols[k] in schema
    {
      if cols[i] !in schema {
        return Err("dedup column not found");
      }
    }
    var sorted := lexsort(Ascending(cols), merged);
    PermutationLength(merged, sorted);
    var keep := MarkRuns(cols, sorted);
    var out := TakeMarked(cols, sorted, keep);
    return Ok(out);
  }

  /** Fills the `keep` buffer: a row stays when its key differs from the row before it. */
  method MarkRuns(cols: seq<string>, sorted: seq<Row>) returns (keep: array<bool>)
    ensures fresh(keep) && keep.Length == |sorted|
    ensures forall i :: 0 <= i < |sorted| ==> keep[i] == StartsRun(cols, sorted, i)
  {
    keep := new bool[|sorted|](_ => false);
    if |sorted| > 0 {
      keep[0] := true;
    }
    var row := 1;
    while row < |sorted|
      invariant 1 <= row && (row <= |sorted| || |sorted| == 0)
      invariant forall i :: 0 <= i < row && i < |sorted| ==> keep[i] == StartsRun(cols, sorted, i)
    {
      var differs := false;
      var c := 0;
      while c < |cols|
        invariant c <= |cols|
        invariant differs <==> KeyOf(cols, sorted[row - 1])[..c] != KeyOf(cols, sorted[row])[..c]
      {
        var prev, curr := Column(sorted[row - 1], cols[c]), Column(sorted[row], cols[c]);
        if prev != curr {
          differs := true;
          assert KeyOf(cols, sorted[row - 1])[c] != KeyOf(cols, sorted[row])[c];
          break;
        }
        assert forall r :: KeyOf(cols, r)[..c + 1] == KeyOf(cols, r)[..c] + [Column(r, cols[c])];
        c := c + 1;
      }
      assert forall r :: KeyOf(cols, r)[..|cols|] == KeyOf(cols, r);
      keep[row] := differs;
      row := row + 1;
    }
  }

  method TakeMarked(ghost cols: seq<string>, sorted: seq<Row>, keep: array<bool>) returns (out: seq<Row>)
    requires keep.Length == |sorted| && forall i :: 0 <= i < |sorted| ==> keep[i] == StartsRun(cols, sorted, i)
    ensures out == FirstOfRuns(cols, sorted)
  {
    out := [];
    for i := 0 to |sorted|
      invariant out == FirstOfRuns(cols, sorted[..i])
    {
      assert sorted[..i + 1][..i] == sorted[..i];
      assert StartsRun(cols, sorted[..i + 1], i) == StartsRun(cols, sorted, i);
      if keep[i] {
        out := out + [sorted[i]];
      }
    }
    assert sorted[..|sorted|] == sorted;
  }

  predicate StartsRun(cols: seq<string>, sorted: seq<Row>, i: nat)
    requires i < |sorted|
  {
    i == 0 || KeyOf(cols, sorted[i - 1]) != KeyOf(cols, sorted[i])
  }

  function FirstOfRuns(cols: seq<string>, sorted: seq<Row>): seq<Row> {
    if sorted == [] then []
    else
      var n := |sorted| - 1;
      var rest := FirstOfRuns(cols, sorted[..n]);
      if StartsRun(cols, sorted, n) then rest + [sorted[n]] else rest
  }

  // ---- What it achieves -----------------------------------------------------

  ghost predicate HasKey(cols: seq<string>, rows: seq<Row>, k: DedupKey) {
    exists i :: 0 <= i < |rows| && KeyOf(cols, rows[i]) == k
  }

  /** The keys of the rows strictly increase. */
  ghost predicate StrictlyIncreasing(cols: seq<string>, rows: seq<Row>) {
    forall i, j :: 0 <= i < j < |rows| ==> CompareRows(Ascending(cols), rows[i], rows[j]).Less?
  }

  lemma {:induction false} EqualKeys(cols: seq<string>, a: Row, b: Row)
    requires forall c :: c in cols ==> SameOrDifferent(Column(a, c), Column(b, c))
    ensures CompareRows(Ascending(cols), a, b).Equal? <==> KeyOf(cols, a) == KeyOf(cols, b)
  {
    if cols != [] {
      EqualKeys(cols[1..], a, b);
      assert Ascending(cols)[1..] == Ascending(cols[1..]);
      assert cols[0] in cols;
      CompareTotalSelf(Column(a, cols[0]));
      KeyEquality(cols, a, b);
    }
  }

  lemma KeyEquality(cols: seq<string>, a: Row, b: Row)
    requires cols != []
    ensures KeyOf(cols, a) == KeyOf(cols, b) <==>
      Column(a, cols[0]) == Column(b, cols[0]) && KeyOf(cols[1..], a) == KeyOf(cols[1..], b)
  {
    var k, l := KeyOf(cols, a), KeyOf(cols, b);
    assert k[1..] == KeyOf(cols[1..], a) && l[1..] == KeyOf(cols[1..], b);
    assert k == [k[0]] + k[1..] && l == [l[0]] + l[1..];
  }

  lemma CompareTotalSelf(v: ScalarValue)
    ensures CompareTotal(v, v).Equal?
  {
    if v.Utf8? { CompareStringsReverse(v.s, v.s); }
  }

  lemma OneTypePermuted(cols: seq<string>, rows: seq<Row>, sorted: seq<Row>)
    requires OneType(cols, rows) && multiset(rows) == multiset(sorted)
    ensures OneType(cols, sorted)
  {
    assert forall x :: x in rows <==> x in multiset(rows);
    forall i, j, c | 0 <= i < |sorted| && 0 <= j < |sorted| && c in cols
      ensures SameOrDifferent(Column(sorted[i], c), Column(sorted[j], c))
    {
      assert sorted[i] in multiset(sorted) && sorted[j] in multiset(sorted);
      var k :| 0 <= k < |rows| && rows[k] == sorted[i];
      var l :| 0 <= l < |rows| && rows[l] == sorted[j];
    }
  }

  lemma {:induction false} RunsSelect(cols: seq<string>, sorted: seq<Row>)
    ensures forall x :: x in FirstOfRuns(cols, sorted) ==> x in sorted
  {
    if sorted != [] {
      RunsSelect(cols, sorted[..|sorted| - 1]);
      assert sorted == sorted[..|sorted| - 1] + [sorted[|sorted| - 1]];
    }
  }

  lemma {:induction false} RunsKeepKeys(cols: seq<string>, sorted: seq<Row>)
    ensures forall k :: HasKey(cols, sorted, k) <==> HasKey(cols, FirstOfRuns(cols, sorted), k)
  {
    if sorted != [] {
      var front, last := sorted[..|sorted| - 1], sorted[|sorted| - 1];
      RunsKeepKeys(cols, front);
      RunKeys(cols, front, last, FirstOfRuns(cols, front));
      assert sorted == front + [last];
    }
  }

  /** The first rows of the runs have strictly increasing keys. */
  lemma {:induction false} RunsIncrease(cols: seq<string>, sorted: seq<Row>)
    requires Sorted(RowLeq(Ascending(cols)), sorted) && OneType(cols, sorted)
    ensures StrictlyIncreasing(cols, FirstOfRuns(cols, sorted))
  {
    if sorted != [] {
      var n := |sorted| - 1;
      RunsIncrease(cols, sorted[..n]);
      RunsSelect(cols, sorted[..n]);
      if StartsRun(cols, sorted, n) { RunStartsAbove(cols, sorted, FirstOfRuns(cols, sorted[..n])); }
    }
  }

  /** A row that starts a run increases any increasing selection of the rows before it. */
  lemma RunStartsAbove(cols: seq<string>, sorted: seq<Row>, rest: seq<Row>)
    requires Sorted(RowLeq(Ascending(cols)), sorted) && OneType(cols, sorted)
    requires sorted != [] && StartsRun(cols, sorted, |sorted| - 1)
    requires StrictlyIncreasing(cols, rest) && forall x :: x in rest ==> x in sorted[..|sorted| - 1]
    ensures StrictlyIncreasing(cols, rest + [sorted[|sorted| - 1]])
  {
    var last := sorted[|sorted| - 1];
    forall i | 0 <= i < |rest| ensures CompareRows(Ascending(cols), rest[i], last).Less? {
      assert rest[i] in rest;
      var k :| 0 <= k < |sorted| - 1 && sorted[k] == rest[i];
      BelowRunStart(cols, sorted, k);
    }
  }

  /** The last row of a sorted list, if it starts a run, lies strictly above all others. */
  lemma BelowRunStart(cols: seq<string>, sorted: seq<Row>, k: nat)
    requires Sorted(RowLeq(Ascending(cols)), sorted) && OneType(cols, sorted)
    requires k < |sorted| - 1 && StartsRun(cols, sorted, |sorted| - 1)
    ensures CompareRows(Ascending(cols), sorted[k], sorted[|sorted| - 1]).Less?
  {
    var n, order := |sorted| - 1, Ascending(cols);
    var leq := RowLeq(order);
    assert leq(sorted[k], sorted[n]) && leq(sorted[n - 1], sorted[n]);
    EqualKeys(cols, sorted[n - 1], sorted[n]);
    if CompareRows(order, sorted[k], sorted[n]).Equal? {
      CompareRowsReverse(order, sorted[k], sorted[n]);
      CompareRowsReverse(order, sorted[n - 1], sorted[n]);
      if k < n - 1 { assert leq(sorted[k], sorted[n - 1]); }
      CompareRowsTransitive(order, sorted[n], sorted[k], sorted[n - 1]);
    }
  }

  lemma RunKeys(cols: seq<string>, front: seq<Row>, last: Row, rest: seq<Row>)
    requires rest == FirstOfRuns(cols, front)
    requires forall k :: HasKey(cols, front, k) <==> HasKey(cols, rest, k)
    ensures forall k :: HasKey(cols, front + [last], k) <==> HasKey(cols, FirstOfRuns(cols, front + [last]), k)
  {
    var sorted := front + [last];
    assert sorted[..|sorted| - 1] == front;
    forall k ensures HasKey(cols, sorted, k) <==> HasKey(cols, front, k) || KeyOf(cols, last) == k {
      HasKeySnoc(cols, front, last, k);
    }
    if StartsRun(cols, sorted, |front|) {
      forall k ensures HasKey(cols, rest + [last], k) <==> HasKey(cols, rest, k) || KeyOf(cols, last) == k {
        HasKeySnoc(cols, rest, last, k);
      }
    } else {
      assert HasKey(cols, front, KeyOf(cols, last)) by { assert KeyOf(cols, front[|front| - 1]) == KeyOf(cols, last); }
    }
  }

  lemma HasKeySnoc(cols: seq<string>, rows: seq<Row>, row: Row, k: DedupKey)
    ensures HasKey(cols, rows + [row], k) <==> HasKey(cols, rows, k) || KeyOf(cols, row) == k
  {
    var more := rows + [row];
    if HasKey(cols, rows, k) {
      var i :| 0 <= i < |rows| && KeyOf(cols, rows[i]) == k;
      assert KeyOf(cols, more[i]) == k;
    }
    if KeyOf(cols, row) == k { assert KeyOf(cols, more[|rows|]) == k; }
    if HasKey(cols, more, k) && KeyOf(cols, row) != k {
      var i :| 0 <= i < |more| && KeyOf(cols, more[i]) == k;
      assert KeyOf(cols, rows[i]) == k;
    }
  }

  /** Sort-based dedup refines set dedup: keys strictly increase, the key set is the input's,
      and every row returned is an input row. */
  lemma DedupRefinesSet(cols: seq<string>, rows: seq<Row>, sorted: seq<Row>)
    requires OneType(cols, rows) && SortsTo(RowLeq(Ascending(cols)), rows, sorted)
    ensures
      var out := FirstOfRuns(cols, sorted);
      && StrictlyIncreasing(cols, out)
      && (forall k :: HasKey(cols, out, k) <==> HasKey(cols, rows, k))
      && (forall x :: x in out ==> x in rows)
  {
    OneTypePermuted(cols, rows, sorted);
    RunsIncrease(cols, sorted);
    RunsSelect(cols, sorted);
    RunsKeepKeys(cols, sorted);
    assert forall x :: x in rows <==> x in multiset(rows);
    assert forall x :: x in sorted <==> x in multiset(sorted);
    forall k ensures HasKey(cols, sorted, k) <==> HasKey(cols, rows, k) {
      SameKeySet(cols, rows, sorted, k);
      SameKeySet(cols, sorted, rows, k);
    }
  }

  lemma SameKeySet(cols: seq<string>, a: seq<Row>, b: seq<Row>, k: DedupKey)
    requires forall x :: x in a ==> x in b
    ensures HasKey(cols, a, k) ==> HasKey(cols, b, k)
  {
    if HasKey(cols, a, k) {
      var i :| 0 <= i < |a| && KeyOf(cols, a[i]) == k;
      assert a[i] in b;
      var j :| 0 <= j < |b| && b[j] == a[i];
    }
  }

  lemma {:induction false} SameKeyEqual(cols: seq<string>, a: Row, b: Row)
    requires KeyOf(cols, a) == KeyOf(cols, b)
    ensures CompareRows(Ascending(cols), a, b).Equal?
  {
    if cols != [] {
      assert KeyOf(cols, a)[0] == KeyOf(cols, b)[0];
      CompareTotalSelf(Column(a, cols[0]));
      assert KeyOf(cols, a)[1..] == KeyOf(cols[1..], a) && KeyOf(cols, b)[1..] == KeyOf(cols[1..], b);
      SameKeyEqual(cols[1..], a, b);
      assert Ascending(cols)[1..] == Ascending(cols[1..]);
    }
  }
}
