/** What deduplication does to the order of its rows and to the choice among rows of one key. */
module DedupOrder {
  import opened Base
  import opened Values
  import opened Sorting
  import opened RowOrder
  import opened Merger

  function KeysOf(cols: seq<string>, rows: seq<Row>): (ks: seq<DedupKey>)
    ensures |ks| == |rows| && forall i :: 0 <= i < |rows| ==> ks[i] == KeyOf(cols, rows[i])
  {
    Map(r => KeyOf(cols, r), rows)
  }

  /** The output of deduplication for one way of sorting its input. */
  ghost predicate Deduped(cols: seq<string>, rows: seq<Row>, out: seq<Row>) {
    exists sorted :: SortsTo(RowLeq(Ascending(cols)), rows, sorted) && out == FirstOfRuns(cols, sorted)
  }

  // ---- The order of the output ----------------------------------------------

  /** Increasing lists over one key set list it alike. */
  lemma {:induction false} IncreasingUnique(cols: seq<string>, a: seq<Row>, b: seq<Row>)
    requires StrictlyIncreasing(cols, a) && StrictlyIncreasing(cols, b)
    requires forall k :: HasKey(cols, a, k) <==> HasKey(cols, b, k)
    ensures KeysOf(cols, a) == KeysOf(cols, b)
  {
    if a == [] || b == [] {
      if a != [] { assert HasKey(cols, a, KeyOf(cols, a[0])); }
      if b != [] { assert HasKey(cols, b, KeyOf(cols, b[0])); }
    } else {
      LastKeysMeet(cols, a, b);
      var n, m := |a| - 1, |b| - 1;
      var k0 := KeyOf(cols, a[n]);
      forall k ensures HasKey(cols, a[..n], k) <==> HasKey(cols, b[..m], k) {
        FrontKeys(cols, a, k);
        FrontKeys(cols, b, k);
      }
      IncreasingUnique(cols, a[..n], b[..m]);
      assert KeysOf(cols, a) == KeysOf(cols, a[..n]) + [k0] && KeysOf(cols, b) == KeysOf(cols, b[..m]) + [k0];
    }
  }

  /** Without its last row a list has all its keys but that one's. */
  lemma FrontKeys(cols: seq<string>, rows: seq<Row>, k: DedupKey)
    requires rows != [] && StrictlyIncreasing(cols, rows)
    ensures HasKey(cols, rows[..|rows| - 1], k) <==> HasKey(cols, rows, k) && k != KeyOf(cols, rows[|rows| - 1])
  {
    var n := |rows| - 1;
    assert rows == rows[..n] + [rows[n]];
    HasKeySnoc(cols, rows[..n], rows[n], k);
    LastKeyOnce(cols, rows);
  }

  lemma LastKeyOnce(cols: seq<string>, rows: seq<Row>)
    requires rows != [] && StrictlyIncreasing(cols, rows)
    ensures !HasKey(cols, rows[..|rows| - 1], KeyOf(cols, rows[|rows| - 1]))
  {
    var n := |rows| - 1;
    forall i | 0 <= i < n ensures KeyOf(cols, rows[i]) != KeyOf(cols, rows[n]) {
      assert CompareRows(Ascending(cols), rows[i], rows[n]).Less?;
      if KeyOf(cols, rows[i]) == KeyOf(cols, rows[n]) {
        SameKeyEqual(cols, rows[i], rows[n]);
      }
    }
  }

  /** The largest keys of two increasing lists over one key set are the same. */
  lemma LastKeysMeet(cols: seq<string>, a: seq<Row>, b: seq<Row>)
    requires a != [] && b != [] && StrictlyIncreasing(cols, a) && StrictlyIncreasing(cols, b)
    requires forall k :: HasKey(cols, a, k) <==> HasKey(cols, b, k)
    ensures KeyOf(cols, a[|a| - 1]) == KeyOf(cols, b[|b| - 1])
  {
    var x, y, order := a[|a| - 1], b[|b| - 1], Ascending(cols);
    assert HasKey(cols, a, KeyOf(cols, x)) && HasKey(cols, b, KeyOf(cols, y));
    var j :| 0 <= j < |b| && KeyOf(cols, b[j]) == KeyOf(cols, x);
    var i :| 0 <= i < |a| && KeyOf(cols, a[i]) == KeyOf(cols, y);
    if j < |b| - 1 && i < |a| - 1 {
      // x and b[j] have one key, y and a[i] another: b[j] < y and a[i] < x
      SameKeyEqual(cols, x, b[j]);
      SameKeyEqual(cols, y, a[i]);
      CompareRowsReverse(order, b[j], x);
      CompareRowsReverse(order, b[j], y);
      CompareRowsReverse(order, a[i], x);
      CompareRowsReverse(order, y, a[i]);
      CompareRowsTransitive(order, x, b[j], y);
      CompareRowsTransitive(order, x, y, a[i]);
    }
  }

  /** The order rows come in leaves no trace: inputs with the same keys give outputs with the
      same key sequence, whatever each sort does with ties. */
  lemma DedupForgetsOrder(cols: seq<string>, a: seq<Row>, b: seq<Row>, outA: seq<Row>, outB: seq<Row>)
    requires OneType(cols, a) && OneType(cols, b) && Deduped(cols, a, outA) && Deduped(cols, b, outB)
    requires forall k :: HasKey(cols, a, k) <==> HasKey(cols, b, k)
    ensures KeysOf(cols, outA) == KeysOf(cols, outB)
  {
    DedupedMeaning(cols, a, outA);
    DedupedMeaning(cols, b, outB);
    IncreasingUnique(cols, outA, outB);
  }

  lemma DedupedMeaning(cols: seq<string>, rows: seq<Row>, out: seq<Row>)
    requires OneType(cols, rows) && Deduped(cols, rows, out)
    ensures StrictlyIncreasing(cols, out)
    ensures forall k :: HasKey(cols, out, k) <==> HasKey(cols, rows, k)
    ensures forall x :: x in out ==> x in rows
  {
    var sorted :| SortsTo(RowLeq(Ascending(cols)), rows, sorted) && out == FirstOfRuns(cols, sorted);
    DedupRefinesSet(cols, rows, sorted);
  }

  /** Where ascending keys separate two rows, the requested order agrees. */
  ghost predicate OrderFollowsKeys(cols: seq<string>, order: seq<SortExpr>, rows: seq<Row>) {
    forall i, j :: 0 <= i < |rows| && 0 <= j < |rows| && CompareRows(Ascending(cols), rows[i], rows[j]).Less? ==>
      RowLeq(order)(rows[i], rows[j])
  }

  /** Rows with one key compare alike under an order on key columns. */
  lemma KeyDecidesOrder(cols: seq<string>, order: seq<SortExpr>, a: Row, b: Row, c: Row, d: Row)
    requires SortFields(order) <= Elements(cols) && KeyOf(cols, a) == KeyOf(cols, c) && KeyOf(cols, b) == KeyOf(cols, d)
    ensures CompareRows(order, a, b) == CompareRows(order, c, d)
  {
    forall i | 0 <= i < |order|
      ensures Column(a, order[i].field) == Column(c, order[i].field) &&
        Column(b, order[i].field) == Column(d, order[i].field)
    {
      assert order[i].field in SortFields(order) && order[i].field in cols;
      var j :| 0 <= j < |cols| && cols[j] == order[i].field;
      assert KeyOf(cols, a)[j] == KeyOf(cols, c)[j] && KeyOf(cols, b)[j] == KeyOf(cols, d)[j];
    }
    CompareRowsAgree(order, a, b, c, d);
  }

  /** An ORDER BY on the columns of a DISTINCT holds of its output exactly when the ascending
      order of the keys implies it, for every two input rows. */
  lemma OrderSurvivesIff(cols: seq<string>, order: seq<SortExpr>, rows: seq<Row>, out: seq<Row>)
    requires OneType(cols, rows) && Deduped(cols, rows, out) && SortFields(order) <= Elements(cols)
    ensures Sorted(RowLeq(order), out) <==> OrderFollowsKeys(cols, order, rows)
  {
    DedupedMeaning(cols, rows, out);
    if OrderFollowsKeys(cols, order, rows) {
      forall i, j | 0 <= i < j < |out| ensures RowLeq(order)(out[i], out[j]) {
        assert out[i] in out && out[j] in out;
        var k :| 0 <= k < |rows| && rows[k] == out[i];
        var l :| 0 <= l < |rows| && rows[l] == out[j];
      }
    }
    if Sorted(RowLeq(order), out) {
      forall i, j | 0 <= i < |rows| && 0 <= j < |rows| && CompareRows(Ascending(cols), rows[i], rows[j]).Less?
        ensures RowLeq(order)(rows[i], rows[j])
      {
        SurvivorsInOrder(cols, order, rows, out, rows[i], rows[j]);
      }
    }
  }

  lemma SurvivorsInOrder(cols: seq<string>, order: seq<SortExpr>, rows: seq<Row>, out: seq<Row>, x: Row, y: Row)
    requires StrictlyIncreasing(cols, out) && (forall k :: HasKey(cols, out, k) <==> HasKey(cols, rows, k))
    requires SortFields(order) <= Elements(cols) && Sorted(RowLeq(order), out)
    requires x in rows && y in rows && CompareRows(Ascending(cols), x, y).Less?
    ensures RowLeq(order)(x, y)
  {
    HasKeyOf(cols, rows, x);
    HasKeyOf(cols, rows, y);
    var a :| 0 <= a < |out| && KeyOf(cols, out[a]) == KeyOf(cols, x);
    var b :| 0 <= b < |out| && KeyOf(cols, out[b]) == KeyOf(cols, y);
    AscendingFields(cols);
    KeyDecidesOrder(cols, Ascending(cols), out[a], out[b], x, y);
    CompareRowsReverse(Ascending(cols), out[a], out[b]);
    assert a < b;
    KeyDecidesOrder(cols, order, out[a], out[b], x, y);
    assert RowLeq(order)(out[a], out[b]);
  }

  lemma HasKeyOf(cols: seq<string>, rows: seq<Row>, x: Row)
    requires x in rows
    ensures HasKey(cols, rows, KeyOf(cols, x))
  {
    var i :| 0 <= i < |rows| && rows[i] == x;
  }

  lemma AscendingFields(cols: seq<string>)
    ensures SortFields(Ascending(cols)) <= Elements(cols)
  {}

  // ---- Which row of a key survives ------------------------------------------

  /** `x` is the first row of its key. */
  ghost predicate IsFirst(cols: seq<string>, rows: seq<Row>, x: Row) {
    exists j :: FirstAt(cols, rows, j, KeyOf(cols, x)) && rows[j] == x
  }

  ghost predicate FirstAt(cols: seq<string>, rows: seq<Row>, j: int, k: DedupKey) {
    0 <= j < |rows| && KeyOf(cols, rows[j]) == k && forall i :: 0 <= i < j ==> KeyOf(cols, rows[i]) != k
  }

  ghost predicate KeepsFirst(cols: seq<string>, rows: seq<Row>, out: seq<Row>) {
    forall i :: 0 <= i < |out| ==> IsFirst(cols, rows, out[i])
  }

  /** Rows with one key are one row. */
  ghost predicate KeyDecidesRow(cols: seq<string>, rows: seq<Row>) {
    forall i, j :: 0 <= i < |rows| && 0 <= j < |rows| && KeyOf(cols, rows[i]) == KeyOf(cols, rows[j]) ==>
      rows[i] == rows[j]
  }

  lemma {:induction false} FindFirst(cols: seq<string>, rows: seq<Row>, k: DedupKey) returns (j: nat)
    requires HasKey(cols, rows, k)
    ensures FirstAt(cols, rows, j, k)
  {
    var n := |rows| - 1;
    assert rows == rows[..n] + [rows[n]];
    HasKeySnoc(cols, rows[..n], rows[n], k);
    if HasKey(cols, rows[..n], k) {
      j := FindFirst(cols, rows[..n], k);
      assert forall i :: 0 <= i <= j ==> rows[..n][i] == rows[i];
    } else {
      j := n;
      assert forall i :: 0 <= i < n ==> rows[..n][i] == rows[i];
    }
  }

  /** The rows that start a run are the ones that stay. */
  lemma {:induction false} RunStartStays(cols: seq<string>, sorted: seq<Row>, p: nat)
    requires p < |sorted| && StartsRun(cols, sorted, p)
    ensures sorted[p] in FirstOfRuns(cols, sorted)
  {
    var n := |sorted| - 1;
    if p < n {
      assert StartsRun(cols, sorted[..n], p);
      RunStartStays(cols, sorted[..n], p);
    }
  }

  function Without<T>(s: seq<T>, m: nat): seq<T>
    requires m < |s|
  {
    s[..m] + s[m + 1..]
  }

  /** Some admissible sort puts a chosen row at the head of its run. */
  lemma ChosenSurvives(cols: seq<string>, rows: seq<Row>, m: nat) returns (out: seq<Row>)
    requires m < |rows|
    ensures Deduped(cols, rows, out) && rows[m] in out
  {
    var leq, x, rest := RowLeq(Ascending(cols)), rows[m], Without(rows, m);
    RowLeqTotalPreorder(Ascending(cols));
    SortOfSorts(leq, rest);
    var sorted := Insert(leq, SortOf(leq, rest), x);
    InsertSorted(leq, SortOf(leq, rest), x);
    InsertMultiset(leq, SortOf(leq, rest), x);
    assert rows == rows[..m] + [x] + rows[m + 1..];
    assert SortsTo(leq, rows, sorted);
    var p := InsertedAt(leq, SortOf(leq, rest), x);
    if p > 0 && KeyOf(cols, sorted[p - 1]) == KeyOf(cols, x) {
      SameKeyEqual(cols, x, sorted[p - 1]);
    }
    RunStartStays(cols, sorted, p);
    out := FirstOfRuns(cols, sorted);
  }

  lemma FirstUnique(cols: seq<string>, rows: seq<Row>, j: nat, x: Row)
    requires IsFirst(cols, rows, x) && FirstAt(cols, rows, j, KeyOf(cols, x))
    ensures rows[j] == x
  {
    var i :| FirstAt(cols, rows, i, KeyOf(cols, x)) && rows[i] == x;
    assert !(i < j) && !(j < i);
  }

  /** The documentation promises that the first occurrence of each key is kept.  Sorts may
      break ties either way, and the promise holds for all of them exactly when rows with
      one key are equal. */
  lemma FirstOccurrenceIff(cols: seq<string>, rows: seq<Row>)
    ensures (forall out :: Deduped(cols, rows, out) ==> KeepsFirst(cols, rows, out)) <==> KeyDecidesRow(cols, rows)
  {
    if KeyDecidesRow(cols, rows) {
      forall out | Deduped(cols, rows, out) ensures KeepsFirst(cols, rows, out) {
        OnlyRowIsFirst(cols, rows, out);
      }
    } else {
      var i, j :|
        0 <= i < |rows| && 0 <= j < |rows| && KeyOf(cols, rows[i]) == KeyOf(cols, rows[j]) && rows[i] != rows[j];
      var l := FindFirst(cols, rows, KeyOf(cols, rows[i]));
      var m := if rows[i] != rows[l] then i else j;
      var out := ChosenSurvives(cols, rows, m);
      var k :| 0 <= k < |out| && out[k] == rows[m];
      if IsFirst(cols, rows, out[k]) { FirstUnique(cols, rows, l, out[k]); }
      assert !KeepsFirst(cols, rows, out);
    }
  }

  lemma OnlyRowIsFirst(cols: seq<string>, rows: seq<Row>, out: seq<Row>)
    requires KeyDecidesRow(cols, rows) && Deduped(cols, rows, out)
    ensures KeepsFirst(cols, rows, out)
  {
    var sorted :| SortsTo(RowLeq(Ascending(cols)), rows, sorted) && out == FirstOfRuns(cols, sorted);
    RunsSelect(cols, sorted);
    forall i | 0 <= i < |out| ensures IsFirst(cols, rows, out[i]) {
      assert out[i] in sorted && out[i] in multiset(sorted) && out[i] in rows;
      HasKeyOf(cols, rows, out[i]);
      var l := FindFirst(cols, rows, KeyOf(cols, out[i]));
      var j :| 0 <= j < |rows| && rows[j] == out[i];
      assert rows[l] == rows[j];
    }
  }
}
