/** ORDER BY over rows: the lexicographic comparison `lexsort_to_indices` is given,
    nulls first when ascending and last when descending. */
module RowOrder {
  import opened Base
  import opened Values
  import opened Sorting

  datatype SortExpr = SortExpr(field: string, descending: bool)

  function Rank(v: ScalarValue): nat {
    match v
    case Null => 0
    case Boolean(_) => 1
    case Int64(_) => 2
    case Float64(_) => 2
    case Utf8(_) => 3
  }

  function CompareTotal(a: ScalarValue, b: ScalarValue): Ordering {
    if Rank(a) < Rank(b) then Less
    else if Rank(a) > Rank(b) then Greater
    else if a.Null? then Equal
    else Compare(a, b).value
  }

  function CompareRows(sort: seq<SortExpr>, a: Row, b: Row): Ordering {
    if sort == [] then Equal
    else
      var o := CompareTotal(Column(a, sort[0].field), Column(b, sort[0].field));
      if o.Equal? then CompareRows(sort[1..], a, b)
      else if sort[0].descending then Reverse(o)
      else o
  }

  /** `a` may come before `b`. */
  function RowLeq(sort: seq<SortExpr>): (Row, Row) -> bool {
    (a, b) => !CompareRows(sort, a, b).Greater?
  }

  function SortFields(sort: seq<SortExpr>): set<string> {
    set i | 0 <= i < |sort| :: sort[i].field
  }

  /** The columns a query asks for; no list means all of them. */
  function Project(projections: seq<string>, row: Row): Row {
    if projections == [] then row else map name | name in row && name in projections :: row[name]
  }

  lemma CompareTotalLaws(a: ScalarValue, b: ScalarValue, c: ScalarValue)
    ensures CompareTotal(b, a) == Reverse(CompareTotal(a, b))
    ensures
      !CompareTotal(a, b).Greater? && !CompareTotal(b, c).Greater? ==>
        !CompareTotal(a, c).Greater? &&
        (CompareTotal(a, c).Equal? <==> CompareTotal(a, b).Equal? && CompareTotal(b, c).Equal?)
  {
    CompareReverse(a, b);
    if a.Utf8? && b.Utf8? && c.Utf8? {
      CompareStringsReverse(a.s, b.s);
      CompareStringsReverse(b.s, c.s);
      CompareStringsReverse(a.s, c.s);
      if !CompareStrings(a.s, b.s).Greater? && !CompareStrings(b.s, c.s).Greater? {
        CompareStringsTransitive(a.s, b.s, c.s);
        if CompareStrings(a.s, c.s).Equal? { CompareStringsTransitive(b.s, c.s, a.s); }
      }
    }
  }

  lemma {:induction false} CompareRowsReverse(sort: seq<SortExpr>, a: Row, b: Row)
    ensures CompareRows(sort, b, a) == Reverse(CompareRows(sort, a, b))
  {
    if sort != [] {
      CompareTotalLaws(Column(a, sort[0].field), Column(b, sort[0].field), Null);
      CompareRowsReverse(sort[1..], a, b);
    }
  }

  lemma {:induction false} CompareRowsTransitive(sort: seq<SortExpr>, a: Row, b: Row, c: Row)
    requires !CompareRows(sort, a, b).Greater? && !CompareRows(sort, b, c).Greater?
    ensures !CompareRows(sort, a, c).Greater?
  {
    if sort != [] {
      var x, y, z := Column(a, sort[0].field), Column(b, sort[0].field), Column(c, sort[0].field);
      CompareTotalLaws(x, y, z);
      CompareTotalLaws(z, y, x);
      CompareTotalLaws(y, z, x);
      CompareTotalLaws(x, z, y);
      if CompareTotal(x, y).Equal? && CompareTotal(y, z).Equal? {
        CompareRowsTransitive(sort[1..], a, b, c);
      }
    }
  }

  lemma RowLeqTotalPreorder(sort: seq<SortExpr>)
    ensures TotalPreorder(RowLeq(sort))
  {
    var leq := RowLeq(sort);
    forall a, b ensures leq(a, b) || leq(b, a) {
      CompareRowsReverse(sort, a, b);
    }
    forall a, b, c | leq(a, b) && leq(b, c) ensures leq(a, c) {
      CompareRowsTransitive(sort, a, b, c);
    }
  }

  /** Rows compare the same when they agree on the sort fields. */
  lemma {:induction false} CompareRowsAgree(sort: seq<SortExpr>, a: Row, b: Row, c: Row, d: Row)
    requires forall i :: 0 <= i < |sort| ==>
      Column(a, sort[i].field) == Column(c, sort[i].field) && Column(b, sort[i].field) == Column(d, sort[i].field)
    ensures CompareRows(sort, a, b) == CompareRows(sort, c, d)
  {
    if sort != [] {
      CompareRowsAgree(sort[1..], a, b, c, d);
    }
  }

  /** Sort keys survive a projection that keeps the sort fields. */
  lemma ProjectKeepsOrder(sort: seq<SortExpr>, projections: seq<string>, a: Row, b: Row)
    requires projections == [] || SortFields(sort) <= Elements(projections)
    ensures CompareRows(sort, Project(projections, a), Project(projections, b)) == CompareRows(sort, a, b)
  {
    forall i | 0 <= i < |sort|
      ensures Column(a, sort[i].field) == Column(Project(projections, a), sort[i].field)
      ensures Column(b, sort[i].field) == Column(Project(projections, b), sort[i].field)
    {
      assert sort[i].field in SortFields(sort);
    }
    CompareRowsAgree(sort, a, b, Project(projections, a), Project(projections, b));
  }
}
