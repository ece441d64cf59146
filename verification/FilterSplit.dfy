/** Splitting a WHERE clause between the two sides of a join. */
module FilterSplit {
  import opened Base
  import opened Values
  import opened Join
  import opened JoinRows

  /** The part of a qualified name after its last dot. */
  function Bare(field: string): string {
    if field == [] || field[|field| - 1] == '.' then []
    else Bare(field[..|field| - 1]) + [field[|field| - 1]]
  }

  datatype Split = Split(left: Option<FilterExpr>, right: Option<FilterExpr>)

  function SplitJoinFilters(filter: FilterExpr, left: seq<string>, right: seq<string>): Split {
    match filter
    case And(l, r) =>
      var a, b := SplitJoinFilters(l, left, right), SplitJoinFilters(r, left, right);
      Split(Conjoin(a.left, b.left), Conjoin(a.right, b.right))
    case Comparison(field, _, _) =>
      if Bare(field) in left then Split(Some(filter), None)
      else if Bare(field) in right then Split(None, Some(filter))
      else Split(Some(filter), Some(filter))
    case _ => Split(Some(filter), Some(filter))
  }

  /** On one and the same row, the two halves together say what the whole says. */
  lemma {:induction false} SplitConjoins(filter: FilterExpr, left: seq<string>, right: seq<string>,
                                         cols: string -> ScalarValue)
    ensures
      var s := SplitJoinFilters(filter, left, right);
      Passes(s.left, cols) && Passes(s.right, cols) <==> Eval(filter, cols).True?
  {
    if filter.And? {
      SplitConjoins(filter.l, left, right, cols);
      SplitConjoins(filter.r, left, right, cols);
      var a, b := SplitJoinFilters(filter.l, left, right), SplitJoinFilters(filter.r, left, right);
      ConjoinPasses(a.left, b.left, cols);
      ConjoinPasses(a.right, b.right, cols);
    }
  }

  // ---- The columns of a joined row ------------------------------------------

  /** A probe column whose name is taken gets a prefix; the probe key has no column. */
  function OutputName(build: Side, column: string): string {
    if column in build.columns then "probe_" + column else column
  }

  function ProbeOutput(build: Side, columns: seq<string>, key: string, row: Row, name: string): ScalarValue {
    if columns == [] then Null
    else if columns[0] != key && OutputName(build, columns[0]) == name then Column(row, columns[0])
    else ProbeOutput(build, columns[1..], key, row, name)
  }

  function OutputColumn(build: Side, probe: Side, j: Joined<Row, Row>, name: string): ScalarValue {
    if name in build.columns then (if j.build.Some? then Column(j.build.value, name) else Null)
    else if j.probe.Some? then ProbeOutput(build, probe.columns, probe.key, j.probe.value, name)
    else Null
  }

  /** Field names valued on a row of one side, and on a joined row. */
  function SideCols(row: Row): string -> ScalarValue { name => Column(row, Bare(name)) }

  function OutputCols(build: Side, probe: Side, j: Joined<Row, Row>): string -> ScalarValue {
    name => OutputColumn(build, probe, j, Bare(name))
  }

  function SideTest(filter: Option<FilterExpr>): Row -> bool {
    row => Passes(filter, SideCols(row))
  }

  function OutputTest(filter: FilterExpr, build: Side, probe: Side): Joined<Row, Row> -> bool {
    j => Eval(filter, OutputCols(build, probe, j)).True?
  }

  predicate Conforms(side: Side, row: Row) { row.Keys <= Elements(side.columns) }

  /** The probe column that comes out under this name; the join key does not come out. */
  function Origin(build: Side, columns: seq<string>, key: string, name: string): Option<string> {
    if columns == [] then None
    else if columns[0] != key && OutputName(build, columns[0]) == name then Some(columns[0])
    else Origin(build, columns[1..], key, name)
  }

  function OriginOf(build: Side, probe: Side, name: string): Option<string> {
    Origin(build, probe.columns, probe.key, name)
  }

  lemma {:induction false} OriginValue(build: Side, columns: seq<string>, key: string, row: Row, name: string)
    ensures
      var o := Origin(build, columns, key, name);
      && ProbeOutput(build, columns, key, row, name) == (if o.Some? then Column(row, o.value) else Null)
      && (o.Some? ==> o.value in columns)
  {
    if columns != [] { OriginValue(build, columns[1..], key, row, name); }
  }

  /** The comparison holds of this value. */
  predicate Satisfies(v: ScalarValue, f: FilterExpr)
    requires f.Comparison?
  {
    Holds(f.op, v, f.value, None).True?
  }

  lemma ComparisonTruth(f: FilterExpr, cols: string -> ScalarValue)
    requires f.Comparison?
    ensures Eval(f, cols).True? <==> Satisfies(cols(f.field), f)
    ensures !Satisfies(Null, f)
  {}

  /** No value makes the comparison true. */
  ghost predicate Unsatisfiable(f: FilterExpr)
    requires f.Comparison?
  {
    forall v :: !Satisfies(v, f)
  }

  /** The name means the same column before and after the join, or none at all. */
  predicate Routable(build: Side, probe: Side, name: string) {
    || name in build.columns
    || OriginOf(build, probe, name) == (if name in probe.columns then Some(name) else None)
  }

  /** A conjunction of comparisons, each on such a name or never true. */
  ghost predicate Splittable(filter: FilterExpr, build: Side, probe: Side) {
    match filter
    case And(l, r) => Splittable(l, build, probe) && Splittable(r, build, probe)
    case Comparison(field, _, _) => Routable(build, probe, Bare(field)) || Unsatisfiable(filter)
    case _ => false
  }

  /** What the probe side makes of a comparison that is not on the build side. */
  lemma ComparisonBefore(f: FilterExpr, build: Side, probe: Side, b: Row, p: Row)
    requires f.Comparison? && Bare(f.field) !in build.columns && Conforms(build, b) && Conforms(probe, p)
    ensures
      var s := SplitJoinFilters(f, build.columns, probe.columns);
      Passes(s.left, SideCols(b)) && Passes(s.right, SideCols(p)) <==> Satisfies(Column(p, Bare(f.field)), f)
  {
    ComparisonTruth(f, SideCols(b));
    ComparisonTruth(f, SideCols(p));
  }

  /** And what the joined row makes of it. */
  lemma ComparisonAfter(f: FilterExpr, build: Side, probe: Side, b: Row, p: Row)
    requires f.Comparison? && Bare(f.field) !in build.columns
    ensures
      var o := OriginOf(build, probe, Bare(f.field));
      Eval(f, OutputCols(build, probe, Joined(Some(b), Some(p)))).True? <==>
      o.Some? && Satisfies(Column(p, o.value), f)
  {
    ComparisonTruth(f, OutputCols(build, probe, Joined(Some(b), Some(p))));
    OriginValue(build, probe.columns, probe.key, p, Bare(f.field));
  }

  lemma ComparisonOnSides(f: FilterExpr, build: Side, probe: Side, b: Row, p: Row)
    requires f.Comparison? && Splittable(f, build, probe) && Conforms(build, b) && Conforms(probe, p)
    ensures
      var s := SplitJoinFilters(f, build.columns, probe.columns);
      Passes(s.left, SideCols(b)) && Passes(s.right, SideCols(p)) <==>
      Eval(f, OutputCols(build, probe, Joined(Some(b), Some(p)))).True?
  {
    ComparisonTruth(f, SideCols(b));
    if Bare(f.field) !in build.columns {
      ComparisonBefore(f, build, probe, b, p);
      ComparisonAfter(f, build, probe, b, p);
    } else {
      ComparisonTruth(f, OutputCols(build, probe, Joined(Some(b), Some(p))));
    }
  }

  /** For a splittable filter, each half on its side says what the whole says of the pair. */
  lemma {:induction false} SplitOnSides(filter: FilterExpr, build: Side, probe: Side, b: Row, p: Row)
    requires Splittable(filter, build, probe) && Conforms(build, b) && Conforms(probe, p)
    ensures
      var s := SplitJoinFilters(filter, build.columns, probe.columns);
      Passes(s.left, SideCols(b)) && Passes(s.right, SideCols(p)) <==>
      Eval(filter, OutputCols(build, probe, Joined(Some(b), Some(p)))).True?
  {
    if filter.And? {
      SplitOnSides(filter.l, build, probe, b, p);
      SplitOnSides(filter.r, build, probe, b, p);
      var x := SplitJoinFilters(filter.l, build.columns, probe.columns);
      var y := SplitJoinFilters(filter.r, build.columns, probe.columns);
      ConjoinPasses(x.left, y.left, SideCols(b));
      ConjoinPasses(x.right, y.right, SideCols(p));
    } else {
      ComparisonOnSides(filter, build, probe, b, p);
    }
  }

  // ---- Filtering before an inner join ---------------------------------------

  lemma {:induction false} FilterCommutes<T>(p: T -> bool, q: T -> bool, s: seq<T>)
    ensures Filter(p, Filter(q, s)) == Filter(q, Filter(p, s))
  {
    if s != [] {
      var front, last := s[..|s| - 1], s[|s| - 1];
      FilterCommutes(p, q, front);
      FilterSnoc(p, Filter(q, front), last);
      FilterSnoc(q, Filter(p, front), last);
    }
  }

  /** Filtering the pairs of one probe row. */
  lemma {:induction false} FilterJoinedWith<B, P>(bs: seq<B>, p: P, f: B -> bool, g: P -> bool,
                                                  post: Joined<B, P> -> bool)
    requires forall i :: 0 <= i < |bs| ==> post(Joined(Some(bs[i]), Some(p))) == (f(bs[i]) && g(p))
    ensures Filter(post, JoinedWith(bs, p)) == if g(p) then JoinedWith(Filter(f, bs), p) else []
  {
    if bs != [] {
      var front, last := bs[..|bs| - 1], bs[|bs| - 1];
      FilterJoinedWith(front, p, f, g, post);
      JoinedSnoc(front, last, p);
      FilterSnoc(post, JoinedWith(front, p), Joined(Some(last), Some(p)));
      assert bs == front + [last];
      FilterSnoc(f, front, last);
      JoinedSnoc(Filter(f, front), last, p);
    }
  }

  lemma JoinedSnoc<B, P>(bs: seq<B>, b: B, p: P)
    ensures JoinedWith(bs + [b], p) == JoinedWith(bs, p) + [Joined(Some(b), Some(p))]
  {}

  lemma {:induction false} JoinFiltered<B, P>(m: (B, P) -> bool, bs: seq<B>, ps: seq<P>, f: B -> bool, g: P -> bool,
                                              post: Joined<B, P> -> bool)
    requires forall i, j :: 0 <= i < |bs| && 0 <= j < |ps| ==>
      post(Joined(Some(bs[i]), Some(ps[j]))) == (f(bs[i]) && g(ps[j]))
    ensures LoopJoin(m, Filter(f, bs), Filter(g, ps), false) == Filter(post, LoopJoin(m, bs, ps, false))
  {
    if ps != [] {
      var front, p := ps[..|ps| - 1], ps[|ps| - 1];
      JoinFiltered(m, bs, front, f, g, post);
      var found := MatchesOf(m, bs, p);
      forall i | 0 <= i < |found| ensures post(Joined(Some(found[i]), Some(p))) == (f(found[i]) && g(p)) {
        FilterMember(Hit(m, p), bs, found[i]);
        var k :| 0 <= k < |bs| && bs[k] == found[i];
        assert ps[|ps| - 1] == p;
      }
      FilterJoinedWith(found, p, f, g, post);
      FilterAppend(post, LoopJoin(m, bs, front, false), JoinedWith(found, p));
      FilterCommutes(f, Hit(m, p), bs);
      if g(p) {
        var kept := Filter(g, front);
        assert (kept + [p])[..|kept|] == kept;
      }
    }
  }

  /** Filtering each side before an inner join gives the same rows, in the same order, as
      filtering the joined rows. */
  lemma SplitBeforeJoin(filter: FilterExpr, build: Side, probe: Side, m: (Row, Row) -> bool)
    requires Splittable(filter, build, probe)
    requires forall i :: 0 <= i < |RowsOf(build)| ==> Conforms(build, RowsOf(build)[i])
    requires forall i :: 0 <= i < |RowsOf(probe)| ==> Conforms(probe, RowsOf(probe)[i])
    ensures
      var s := SplitJoinFilters(filter, build.columns, probe.columns);
      LoopJoin(m, Filter(SideTest(s.left), RowsOf(build)), Filter(SideTest(s.right), RowsOf(probe)), false) ==
      Filter(OutputTest(filter, build, probe), LoopJoin(m, RowsOf(build), RowsOf(probe), false))
  {
    var s := SplitJoinFilters(filter, build.columns, probe.columns);
    var bs, ps := RowsOf(build), RowsOf(probe);
    var f, g, post := SideTest(s.left), SideTest(s.right), OutputTest(filter, build, probe);
    forall i, j | 0 <= i < |bs| && 0 <= j < |ps|
      ensures post(Joined(Some(bs[i]), Some(ps[j]))) == (f(bs[i]) && g(ps[j]))
    {
      SplitOnSides(filter, build, probe, bs[i], ps[j]);
    }
    JoinFiltered(m, bs, ps, f, g, post);
  }

  // ---- Over the hash join ---------------------------------------------------

  function Filtered(side: Side, filter: Option<FilterExpr>): Side {
    side.(batches := Map(b => Filter(SideTest(filter), b), side.batches))
  }

  lemma FilteredRows(side: Side, filter: Option<FilterExpr>)
    ensures RowsOf(Filtered(side, filter)) == Filter(SideTest(filter), RowsOf(side))
  {
    FilterFlatten(SideTest(filter), side.batches);
    assert Map(b => Filter(SideTest(filter), b), side.batches) == Map(s => Filter(SideTest(filter), s), side.batches);
  }

  /** The inner hash join of the filtered sides is the filtered inner hash join: the same rows
      in the same order, and the same error. */
  lemma SplitBeforeHashJoin(display: ScalarValue -> string, filter: FilterExpr, build: Side, probe: Side)
    requires Splittable(filter, build, probe)
    requires forall i :: 0 <= i < |RowsOf(build)| ==> Conforms(build, RowsOf(build)[i])
    requires forall i :: 0 <= i < |RowsOf(probe)| ==> Conforms(probe, RowsOf(probe)[i])
    ensures
      var s := SplitJoinFilters(filter, build.columns, probe.columns);
      HashJoinSpec(display, Filtered(build, s.left), Filtered(probe, s.right), Inner) ==
      match HashJoinSpec(display, build, probe, Inner)
      case Ok(rows) => Ok(Filter(OutputTest(filter, build, probe), rows))
      case Err(e) => Err(e)
  {
    var s := SplitJoinFilters(filter, build.columns, probe.columns);
    var fb, fp := Filtered(build, s.left), Filtered(probe, s.right);
    FilteredRows(build, s.left);
    FilteredRows(probe, s.right);
    InnerSpec(display, build, probe);
    InnerSpec(display, fb, fp);
    SplitBeforeJoin(filter, build, probe, Meets(display, build.key, probe.key));
  }

  /** The inner case of the hash join. */
  lemma InnerSpec(display: ScalarValue -> string, build: Side, probe: Side)
    ensures HashJoinSpec(display, build, probe, Inner) ==
      if build.batches == [] || probe.batches == [] then Ok([])
      else if build.key !in build.columns || probe.key !in probe.columns then Err("join key not found")
      else Ok(LoopJoin(Meets(display, build.key, probe.key), RowsOf(build), RowsOf(probe), false))
  {}

  // ---- Filters sent whole to both sides -------------------------------------

  /** Everything but a conjunction or a comparison goes to both sides as it is. */
  predicate SentWhole(filter: FilterExpr) { !filter.And? && !filter.Comparison? }

  /** For every pair of rows, both halves together say what the whole says of the joined row. */
  ghost predicate Harmless(filter: FilterExpr, build: Side, probe: Side) {
    forall b, p :: Conforms(build, b) && Conforms(probe, p) ==> PairRight(filter, build, probe, b, p)
  }

  ghost predicate PairRight(filter: FilterExpr, build: Side, probe: Side, b: Row, p: Row) {
    var s := SplitJoinFilters(filter, build.columns, probe.columns);
    SideTest(s.left)(b) && SideTest(s.right)(p) <==> OutputTest(filter, build, probe)(Joined(Some(b), Some(p)))
  }

  ghost predicate AllConform(side: Side, rows: seq<Row>) {
    forall i :: 0 <= i < |rows| ==> Conforms(side, rows[i])
  }

  /** Filtering before this inner join gives what filtering after it gives. */
  ghost predicate JoinRight(filter: FilterExpr, build: Side, probe: Side, m: (Row, Row) -> bool, bs: seq<Row>,
                            ps: seq<Row>) {
    var s := SplitJoinFilters(filter, build.columns, probe.columns);
    LoopJoin(m, Filter(SideTest(s.left), bs), Filter(SideTest(s.right), ps), false) ==
    Filter(OutputTest(filter, build, probe), LoopJoin(m, bs, ps, false))
  }

  ghost predicate EveryJoinRight(filter: FilterExpr, build: Side, probe: Side) {
    forall m: (Row, Row) -> bool, bs: seq<Row>, ps: seq<Row> ::
      AllConform(build, bs) && AllConform(probe, ps) ==> JoinRight(filter, build, probe, m, bs, ps)
  }

  /** A split is harmless exactly when it is right for every inner join of such rows. */
  lemma HarmlessIffJoins(filter: FilterExpr, build: Side, probe: Side)
    ensures Harmless(filter, build, probe) <==> EveryJoinRight(filter, build, probe)
  {
    if Harmless(filter, build, probe) {
      forall m: (Row, Row) -> bool, bs: seq<Row>, ps: seq<Row> | AllConform(build, bs) && AllConform(probe, ps)
        ensures JoinRight(filter, build, probe, m, bs, ps)
      {
        HarmlessJoin(filter, build, probe, m, bs, ps);
      }
    } else {
      HarmfulJoin(filter, build, probe);
    }
  }

  lemma HarmfulJoin(filter: FilterExpr, build: Side, probe: Side)
    requires !Harmless(filter, build, probe)
    ensures !EveryJoinRight(filter, build, probe)
  {
    var b, p :| Conforms(build, b) && Conforms(probe, p) && !PairRight(filter, build, probe, b, p);
    OnePairWrong(filter, build, probe, b, p);
    assert AllConform(build, [b]) && AllConform(probe, [p]);
    assert !JoinRight(filter, build, probe, Everywhere(), [b], [p]);
  }

  lemma HarmlessJoin(filter: FilterExpr, build: Side, probe: Side, m: (Row, Row) -> bool, bs: seq<Row>, ps: seq<Row>)
    requires Harmless(filter, build, probe) && AllConform(build, bs) && AllConform(probe, ps)
    ensures JoinRight(filter, build, probe, m, bs, ps)
  {
    var s := SplitJoinFilters(filter, build.columns, probe.columns);
    var f, g, post := SideTest(s.left), SideTest(s.right), OutputTest(filter, build, probe);
    forall i, j | 0 <= i < |bs| && 0 <= j < |ps|
      ensures post(Joined(Some(bs[i]), Some(ps[j]))) == (f(bs[i]) && g(ps[j]))
    {
      assert PairRight(filter, build, probe, bs[i], ps[j]);
    }
    JoinFiltered(m, bs, ps, f, g, post);
  }

  function Everywhere(): (Row, Row) -> bool { (b, p) => true }

  lemma OnePairWrong(filter: FilterExpr, build: Side, probe: Side, b: Row, p: Row)
    requires !PairRight(filter, build, probe, b, p)
    ensures !JoinRight(filter, build, probe, Everywhere(), [b], [p])
  {
    var s := SplitJoinFilters(filter, build.columns, probe.columns);
    OneJoinFiltered(Everywhere(), SideTest(s.left), SideTest(s.right), OutputTest(filter, build, probe), b, p);
  }

  /** A join of one row with one row, filtered before and after. */
  lemma OneJoinFiltered<B, P>(m: (B, P) -> bool, f: B -> bool, g: P -> bool, post: Joined<B, P> -> bool, b: B, p: P)
    requires m(b, p) && post(Joined(Some(b), Some(p))) != (f(b) && g(p))
    ensures LoopJoin(m, Filter(f, [b]), Filter(g, [p]), false) != Filter(post, LoopJoin(m, [b], [p], false))
  {
    OneJoin(m, b, p);
    FilterOne(f, b);
    FilterOne(g, p);
    FilterOne(post, Joined(Some(b), Some(p)));
    NoJoin(m, [b], [p]);
  }

  lemma OneJoin<B, P>(m: (B, P) -> bool, b: B, p: P)
    requires m(b, p)
    ensures LoopJoin(m, [b], [p], false) == [Joined(Some(b), Some(p))]
  {
    FilterOne(Hit(m, p), b);
    assert MatchesOf(m, [b], p) == [b];
    assert RowJoin(m, [b], p, false) == [Joined(Some(b), Some(p))];
    assert [p][..0] == [];
  }

  lemma NoJoin<B, P>(m: (B, P) -> bool, bs: seq<B>, ps: seq<P>)
    requires |ps| == 1
    ensures LoopJoin(m, [], ps, false) == [] && LoopJoin(m, bs, [], false) == [] && LoopJoin(m, [], [], false) == []
  {
    assert ps[..0] == [];
    assert MatchesOf(m, [], ps[0]) == [];
  }

  function AllNull(): string -> ScalarValue { name => Null }

  /** Every field is a column of the build side and of no other. */
  ghost predicate OnBuild(f: FilterExpr, build: Side, probe: Side) {
    forall n :: n in FilterFields(f) ==> Bare(n) in build.columns && Bare(n) !in probe.columns
  }

  /** Every field is a column of the probe side that keeps its name through the join. */
  ghost predicate OnProbe(f: FilterExpr, build: Side, probe: Side) {
    forall n :: n in FilterFields(f) ==> Bare(n) !in build.columns && OriginOf(build, probe, Bare(n)) == Some(Bare(n))
  }

  lemma BuildValues(f: FilterExpr, build: Side, probe: Side, b: Row, p: Row)
    requires OnBuild(f, build, probe) && Conforms(probe, p)
    ensures Eval(f, OutputCols(build, probe, Joined(Some(b), Some(p)))) == Eval(f, SideCols(b))
    ensures Eval(f, SideCols(p)) == Eval(f, AllNull())
  {
    EvalAgrees(f, OutputCols(build, probe, Joined(Some(b), Some(p))), SideCols(b));
    EvalAgrees(f, SideCols(p), AllNull());
  }

  lemma ProbeValues(f: FilterExpr, build: Side, probe: Side, b: Row, p: Row)
    requires OnProbe(f, build, probe) && Conforms(build, b)
    ensures Eval(f, OutputCols(build, probe, Joined(Some(b), Some(p)))) == Eval(f, SideCols(p))
    ensures Eval(f, SideCols(b)) == Eval(f, AllNull())
  {
    forall n | n in FilterFields(f) ensures OutputCols(build, probe, Joined(Some(b), Some(p)))(n) == SideCols(p)(n) {
      OriginValue(build, probe.columns, probe.key, p, Bare(n));
    }
    EvalAgrees(f, OutputCols(build, probe, Joined(Some(b), Some(p))), SideCols(p));
    EvalAgrees(f, SideCols(b), AllNull());
  }

  predicate TrueOn(f: FilterExpr, row: Row) { Eval(f, SideCols(row)).True? }

  predicate TrueOnNulls(f: FilterExpr) { Eval(f, AllNull()).True? }

  ghost predicate NeverTrue(f: FilterExpr, side: Side) {
    forall r :: Conforms(side, r) ==> !TrueOn(f, r)
  }

  ghost predicate AlwaysTrue(f: FilterExpr, side: Side) {
    forall r :: Conforms(side, r) ==> TrueOn(f, r)
  }

  lemma EmptyRow(f: FilterExpr, side: Side)
    ensures Conforms(side, map[]) && (TrueOn(f, map[]) <==> TrueOnNulls(f))
  {
    EvalAgrees(f, SideCols(map[]), AllNull());
  }

  // ---- Comparisons ----------------------------------------------------------

  lemma ColumnRow(name: string, v: ScalarValue, side: Side)
    requires name in side.columns
    ensures
      var r: Row := map[name := v];
      Conforms(side, r) && Column(r, name) == v && forall other :: other != name ==> Column(r, other) == Null
  {}

  /** A comparison on a name that the join drops or gives to another column fails for any
      value that satisfies it. */
  lemma MisroutedComparison(f: FilterExpr, build: Side, probe: Side)
    requires f.Comparison? && !Routable(build, probe, Bare(f.field)) && !Unsatisfiable(f)
    ensures !Harmless(f, build, probe)
  {
    var name := Bare(f.field);
    var o := OriginOf(build, probe, name);
    var v :| Satisfies(v, f);
    OriginValue(build, probe.columns, probe.key, map[], name);
    var shown := if name in probe.columns then name else o.value;
    ColumnRow(shown, v, probe);
    var p: Row := map[shown := v];
    ComparisonBefore(f, build, probe, map[], p);
    ComparisonAfter(f, build, probe, map[], p);
    ComparisonTruth(f, SideCols(p));
    assert Conforms(build, map[]) && !PairRight(f, build, probe, map[], p);
  }

  /** Every comparison: harmless exactly when its name means the same column before and after
      the join, or no value satisfies it.  The probe key, unless it is also a build column,
      fails the first: the side is filtered by it and the output has no such column. */
  lemma ComparisonHarmlessIff(f: FilterExpr, build: Side, probe: Side)
    requires f.Comparison?
    ensures Harmless(f, build, probe) <==> Routable(build, probe, Bare(f.field)) || Unsatisfiable(f)
  {
    if Routable(build, probe, Bare(f.field)) || Unsatisfiable(f) {
      forall b, p | Conforms(build, b) && Conforms(probe, p) ensures PairRight(f, build, probe, b, p) {
        ComparisonOnSides(f, build, probe, b, p);
      }
    } else {
      MisroutedComparison(f, build, probe);
    }
  }

  lemma {:induction false} KeyHasNoOrigin(build: Side, columns: seq<string>, key: string)
    requires key !in build.columns
    requires forall i :: 0 <= i < |columns| && columns[i] != key ==> OutputName(build, columns[i]) != key
    ensures Origin(build, columns, key, key).None?
  {
    if columns != [] { KeyHasNoOrigin(build, columns[1..], key); }
  }

  /** The probe key by itself: a comparison on it is harmless only if it is never true. */
  lemma ProbeKeyHarmlessIff(f: FilterExpr, build: Side, probe: Side)
    requires f.Comparison? && Bare(f.field) == probe.key && probe.key in probe.columns && probe.key !in build.columns
    requires forall i :: 0 <= i < |probe.columns| && probe.columns[i] != probe.key ==>
      OutputName(build, probe.columns[i]) != probe.key
    ensures Harmless(f, build, probe) <==> Unsatisfiable(f)
  {
    KeyHasNoOrigin(build, probe.columns, probe.key);
    ComparisonHarmlessIff(f, build, probe);
  }

  /** A filter on one side's columns that is sent to both is harmless exactly when it is true
      of nulls, or never true: elsewhere the other side turns every row down. */
  lemma OneSidedHarmlessIff(f: FilterExpr, build: Side, probe: Side)
    requires SentWhole(f)
    ensures OnBuild(f, build, probe) ==> (Harmless(f, build, probe) <==> TrueOnNulls(f) || NeverTrue(f, build))
    ensures OnProbe(f, build, probe) ==> (Harmless(f, build, probe) <==> TrueOnNulls(f) || NeverTrue(f, probe))
  {
    if OnBuild(f, build, probe) { BuildHarmlessIff(f, build, probe); }
    if OnProbe(f, build, probe) { ProbeHarmlessIff(f, build, probe); }
  }

  lemma BuildPair(f: FilterExpr, build: Side, probe: Side, b: Row, p: Row)
    requires SentWhole(f) && OnBuild(f, build, probe) && Conforms(probe, p)
    ensures PairRight(f, build, probe, b, p) <==> TrueOnNulls(f) || !TrueOn(f, b)
  {
    BuildValues(f, build, probe, b, p);
  }

  lemma ProbePair(f: FilterExpr, build: Side, probe: Side, b: Row, p: Row)
    requires SentWhole(f) && OnProbe(f, build, probe) && Conforms(build, b)
    ensures PairRight(f, build, probe, b, p) <==> TrueOnNulls(f) || !TrueOn(f, p)
  {
    ProbeValues(f, build, probe, b, p);
  }

  lemma BuildHarmlessIff(f: FilterExpr, build: Side, probe: Side)
    requires SentWhole(f) && OnBuild(f, build, probe)
    ensures Harmless(f, build, probe) <==> TrueOnNulls(f) || NeverTrue(f, build)
  {
    EmptyRow(f, probe);
    if Harmless(f, build, probe) && !TrueOnNulls(f) {
      forall r | Conforms(build, r) ensures !TrueOn(f, r) {
        assert PairRight(f, build, probe, r, map[]);
        BuildPair(f, build, probe, r, map[]);
      }
    }
    if TrueOnNulls(f) || NeverTrue(f, build) {
      forall b, p | Conforms(build, b) && Conforms(probe, p) ensures PairRight(f, build, probe, b, p) {
        BuildPair(f, build, probe, b, p);
      }
    }
  }

  lemma ProbeHarmlessIff(f: FilterExpr, build: Side, probe: Side)
    requires SentWhole(f) && OnProbe(f, build, probe)
    ensures Harmless(f, build, probe) <==> TrueOnNulls(f) || NeverTrue(f, probe)
  {
    EmptyRow(f, build);
    if Harmless(f, build, probe) && !TrueOnNulls(f) {
      forall r | Conforms(probe, r) ensures !TrueOn(f, r) {
        assert PairRight(f, build, probe, map[], r);
        ProbePair(f, build, probe, map[], r);
      }
    }
    if TrueOnNulls(f) || NeverTrue(f, probe) {
      forall b, p | Conforms(build, b) && Conforms(probe, p) ensures PairRight(f, build, probe, b, p) {
        ProbePair(f, build, probe, b, p);
      }
    }
  }

  /** The two disjuncts, each on its own side, as the sides and the joined row see them. */
  lemma DisjunctionOnPair(x: FilterExpr, y: FilterExpr, build: Side, probe: Side, b: Row, p: Row)
    requires OnBuild(x, build, probe) && OnProbe(y, build, probe) && Conforms(build, b) && Conforms(probe, p)
    ensures PairRight(Or(x, y), build, probe, b, p) <==>
      ((TrueOn(x, b) || TrueOnNulls(y)) && (TrueOnNulls(x) || TrueOn(y, p)) <==> TrueOn(x, b) || TrueOn(y, p))
  {
    BuildValues(x, build, probe, b, p);
    ProbeValues(y, build, probe, b, p);
    OrTruth(x, y, SideCols(b));
    OrTruth(x, y, SideCols(p));
    OrTruth(x, y, OutputCols(build, probe, Joined(Some(b), Some(p))));
  }

  /** When a disjunction of a build-side and a probe-side predicate survives being sent whole
      to both sides.  Of two predicates that nulls do not satisfy, such as comparisons, it
      becomes their conjunction, which is right only if neither is ever true. */
  ghost predicate DisjunctionSurvives(x: FilterExpr, y: FilterExpr, build: Side, probe: Side) {
    if TrueOnNulls(x) && TrueOnNulls(y) then AlwaysTrue(x, build) || AlwaysTrue(y, probe)
    else if TrueOnNulls(x) then NeverTrue(y, probe) || AlwaysTrue(x, build)
    else if TrueOnNulls(y) then NeverTrue(x, build) || AlwaysTrue(y, probe)
    else NeverTrue(x, build) && NeverTrue(y, probe)
  }

  lemma DisjunctionHarmlessIff(x: FilterExpr, y: FilterExpr, build: Side, probe: Side)
    requires OnBuild(x, build, probe) && OnProbe(y, build, probe)
    ensures Harmless(Or(x, y), build, probe) <==> DisjunctionSurvives(x, y, build, probe)
  {
    if Harmless(Or(x, y), build, probe) { DisjunctionMust(x, y, build, probe); }
    if DisjunctionSurvives(x, y, build, probe) {
      forall b, p | Conforms(build, b) && Conforms(probe, p) ensures PairRight(Or(x, y), build, probe, b, p) {
        DisjunctionSuffices(x, y, build, probe, b, p);
      }
    }
  }

  lemma DisjunctionSuffices(x: FilterExpr, y: FilterExpr, build: Side, probe: Side, b: Row, p: Row)
    requires OnBuild(x, build, probe) && OnProbe(y, build, probe) && Conforms(build, b) && Conforms(probe, p)
    requires DisjunctionSurvives(x, y, build, probe)
    ensures PairRight(Or(x, y), build, probe, b, p)
  {
    DisjunctionOnPair(x, y, build, probe, b, p);
  }

  /** What harmlessness forces, pair by pair. */
  lemma DisjunctionMust(x: FilterExpr, y: FilterExpr, build: Side, probe: Side)
    requires OnBuild(x, build, probe) && OnProbe(y, build, probe) && Harmless(Or(x, y), build, probe)
    ensures DisjunctionSurvives(x, y, build, probe)
  {
    EmptyRow(x, build);
    EmptyRow(y, probe);
    if !AlwaysTrue(x, build) {
      var b :| Conforms(build, b) && !TrueOn(x, b);
      forall p | Conforms(probe, p)
        ensures (TrueOn(x, b) || TrueOnNulls(y)) && (TrueOnNulls(x) || TrueOn(y, p)) <==> TrueOn(x, b) || TrueOn(y, p)
      {
        DisjunctionOnPair(x, y, build, probe, b, p);
        assert PairRight(Or(x, y), build, probe, b, p);
      }
    }
    if !AlwaysTrue(y, probe) {
      var p :| Conforms(probe, p) && !TrueOn(y, p);
      forall b | Conforms(build, b)
        ensures (TrueOn(x, b) || TrueOnNulls(y)) && (TrueOnNulls(x) || TrueOn(y, p)) <==> TrueOn(x, b) || TrueOn(y, p)
      {
        DisjunctionOnPair(x, y, build, probe, b, p);
        assert PairRight(Or(x, y), build, probe, b, p);
      }
    }
  }

  lemma OrTruth(x: FilterExpr, y: FilterExpr, cols: string -> ScalarValue)
    ensures Eval(Or(x, y), cols).True? <==> Eval(x, cols).True? || Eval(y, cols).True?
  {}
}
