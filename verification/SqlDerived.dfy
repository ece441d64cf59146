/** The filter pushed for a query over derived tables: the code sends the outer WHERE and that
    of a table one level down to the base table, whatever the derived tables make of its
    columns and rows, and filters nothing afterwards. */
module SqlDerived {
  import opened Base
  import opened Values
  import opened SqlTranslate

  /** `*`, a column under its own name, or an expression under another. */
  datatype SelectItem = Wildcard | Named(name: string) | Aliased(expr: SqlExpr, alias: string)

  datatype Select = Select(items: seq<SelectItem>, where: Option<SqlExpr>, from: From, grouped: bool,
                           limit: Option<nat>)

  datatype From = Table(name: string) | Derived(inner: Select) | Unsupported

  // ---- The code -------------------------------------------------------------

  function TranslateWhere(where: Option<SqlExpr>): Option<FilterExpr> {
    if where.None? then None else Translate(where.value)
  }

  /** The filter sent to the connector: the outer WHERE and that of a derived table
      one level down. */
  function PushedFilter(q: Select): Option<FilterExpr> {
    Conjoin(TranslateWhere(q.where), if q.from.Derived? then TranslateWhere(q.from.inner.where) else None)
  }

  function TableName(q: Select): Outcome<string> {
    match q.from
    case Table(name) => Ok(name)
    case Derived(inner) => TableName(inner)
    case Unsupported => Err("unsupported FROM clause")
  }

  /** The rows that come back: what passes the pushed filter, up to the outer LIMIT. */
  function Returned<T>(q: Select, base: seq<T>, cols: T -> Columns): seq<T> {
    Limited(q.limit, Filter(PassesAt(q, cols), base))
  }

  function PassesAt<T>(q: Select, cols: T -> Columns): T -> bool { t => Passes(PushedFilter(q), cols(t)) }

  // ---- The query ------------------------------------------------------------

  /** What the expressions this model does not interpret make of a row. */
  type Interpretation = (SqlExpr, Columns) -> ScalarValue

  function At(interp: Interpretation, cols: Columns): Uninterpreted { e => interp(e, cols) }

  /** The expression behind an output column. */
  function Lookup(items: seq<SelectItem>, name: string): Option<SqlExpr> {
    if items == [] then None
    else
      match items[0]
      case Wildcard => Some(Identifier(name))
      case Named(n) => if n == name then Some(Identifier(name)) else Lookup(items[1..], name)
      case Aliased(e, alias) => if alias == name then Some(e) else Lookup(items[1..], name)
  }

  function Output(items: seq<SelectItem>, cols: Columns, interp: Interpretation): Columns {
    name =>
      match Lookup(items, name)
      case None => Null
      case Some(e) => ValueOf(e, cols, At(interp, cols))
  }

  /** The columns the WHERE of `q` reads, for a row of the base table. */
  function Seen(q: Select, cols: Columns, interp: Interpretation): Columns {
    if q.from.Derived? then Output(q.from.inner.items, Seen(q.from.inner, cols, interp), interp) else cols
  }

  predicate Wanted(q: Select, cols: Columns, interp: Interpretation) {
    var seen := Seen(q, cols, interp);
    q.where.None? || TruthOf(q.where.value, seen, At(interp, seen)).True?
  }

  /** Every WHERE on the way out is true of the row. */
  predicate Survives(q: Select, cols: Columns, interp: Interpretation) {
    Wanted(q, cols, interp) && (q.from.Derived? ==> Survives(q.from.inner, cols, interp))
  }

  function WantedAt<T>(q: Select, cols: T -> Columns, interp: Interpretation): T -> bool {
    t => Wanted(q, cols(t), interp)
  }

  function SurvivesAt<T>(q: Select, cols: T -> Columns, interp: Interpretation): T -> bool {
    t => Survives(q, cols(t), interp)
  }

  /** No derived table groups its rows. */
  predicate FlatBelow(q: Select) {
    q.from.Derived? ==> !q.from.inner.grouped && FlatBelow(q.from.inner)
  }

  /** The rows of the base table behind the rows of the result. */
  function Sources<T>(q: Select, base: seq<T>, cols: T -> Columns, interp: Interpretation): seq<T>
    requires FlatBelow(q)
  {
    var input := if q.from.Derived? then Sources(q.from.inner, base, cols, interp) else base;
    Limited(q.limit, Filter(WantedAt(q, cols, interp), input))
  }

  // ---- When columns keep their names ----------------------------------------

  predicate PassesThrough(items: seq<SelectItem>, name: string) { Lookup(items, name) == Some(Identifier(name)) }

  /** These columns come up from the base table under their own names. */
  predicate Reaches(q: Select, names: set<string>) {
    q.from.Derived? ==>
      (forall n :: n in names ==> PassesThrough(q.from.inner.items, n)) && Reaches(q.from.inner, names)
  }

  function FieldsOf(f: Option<FilterExpr>): set<string> { if f.None? then {} else FilterFields(f.value) }

  /** What the pushed filter reads is what the query reads. */
  predicate Addressed(q: Select) {
    && Reaches(q, FieldsOf(TranslateWhere(q.where)))
    && (q.from.Derived? ==> Reaches(q.from.inner, FieldsOf(TranslateWhere(q.from.inner.where))))
  }

  lemma {:induction false} SeenIs(q: Select, names: set<string>, cols: Columns, interp: Interpretation, n: string)
    requires Reaches(q, names) && n in names
    ensures Seen(q, cols, interp)(n) == cols(n)
  {
    if q.from.Derived? {
      SeenIs(q.from.inner, names, cols, interp, n);
      assert PassesThrough(q.from.inner.items, n);
    }
  }

  lemma SameOnBase(q: Select, cols: Columns, interp: Interpretation)
    requires TranslateWhere(q.where).Some? && Reaches(q, FieldsOf(TranslateWhere(q.where)))
    ensures
      var f := TranslateWhere(q.where).value;
      Eval(f, Seen(q, cols, interp)) == Eval(f, cols)
  {
    var f := TranslateWhere(q.where).value;
    forall n | n in FilterFields(f) ensures Seen(q, cols, interp)(n) == cols(n) {
      SeenIs(q, FilterFields(f), cols, interp, n);
    }
    EvalAgrees(f, Seen(q, cols, interp), cols);
  }

  // ---- What the pushed filter keeps and adds --------------------------------

  predicate SafeWhere(where: Option<SqlExpr>) { where.Some? ==> Safe(where.value, true) }

  predicate TightWhere(where: Option<SqlExpr>) {
    where.Some? ==> Translate(where.value).Some? && Tight(where.value, true)
  }

  /** The WHERE clauses that reach the connector lose only what is safe to lose. */
  predicate SafeSelect(q: Select) {
    SafeWhere(q.where) && (q.from.Derived? ==> SafeWhere(q.from.inner.where))
  }

  predicate NoWhereBelow(q: Select) {
    q.from.Derived? ==> q.from.inner.where.None? && NoWhereBelow(q.from.inner)
  }

  /** They are all there are, and they are sent whole enough to admit nothing else. */
  predicate TightSelect(q: Select) {
    && TightWhere(q.where)
    && (q.from.Derived? ==> TightWhere(q.from.inner.where) && NoWhereBelow(q.from.inner))
  }

  lemma WhereKeeps(q: Select, cols: Columns, interp: Interpretation)
    requires Reaches(q, FieldsOf(TranslateWhere(q.where)))
    ensures SafeWhere(q.where) && Wanted(q, cols, interp) ==> Passes(TranslateWhere(q.where), cols)
    ensures TightWhere(q.where) && Passes(TranslateWhere(q.where), cols) ==> Wanted(q, cols, interp)
  {
    if TranslateWhere(q.where).Some? {
      var seen := Seen(q, cols, interp);
      SameOnBase(q, cols, interp);
      if SafeWhere(q.where) { SafeKeeps(q.where.value, true, seen, At(interp, seen)); }
      if TightWhere(q.where) { TightMatches(q.where.value, true, seen, At(interp, seen)); }
    }
  }

  /** However deep the tables nest, no row that survives is turned down. */
  lemma PushedFilterKeeps(q: Select, cols: Columns, interp: Interpretation)
    requires SafeSelect(q) && Addressed(q) && Survives(q, cols, interp)
    ensures Passes(PushedFilter(q), cols)
  {
    WhereKeeps(q, cols, interp);
    if q.from.Derived? {
      WhereKeeps(q.from.inner, cols, interp);
      ConjoinPasses(TranslateWhere(q.where), TranslateWhere(q.from.inner.where), cols);
    }
  }

  lemma {:induction false} NothingBelow(q: Select, cols: Columns, interp: Interpretation)
    requires NoWhereBelow(q) && q.from.Derived?
    ensures Survives(q.from.inner, cols, interp)
  {
    if q.from.inner.from.Derived? { NothingBelow(q.from.inner, cols, interp); }
  }

  /** And none that does not survive is let in. */
  lemma PushedFilterAddsNone(q: Select, cols: Columns, interp: Interpretation)
    requires TightSelect(q) && Addressed(q) && Passes(PushedFilter(q), cols)
    ensures Survives(q, cols, interp)
  {
    WhereKeeps(q, cols, interp);
    if q.from.Derived? {
      var inner := q.from.inner;
      ConjoinPasses(TranslateWhere(q.where), TranslateWhere(inner.where), cols);
      WhereKeeps(inner, cols, interp);
      if inner.from.Derived? { NothingBelow(inner, cols, interp); }
    }
  }

  /** Every row the pushed filter lets in survives the tables two levels down. */
  ghost predicate DeepImplied(q: Select)
    requires q.from.Derived? && q.from.inner.from.Derived?
  {
    forall cols: Columns, interp: Interpretation ::
      Passes(PushedFilter(q), cols) ==> Survives(q.from.inner.from.inner, cols, interp)
  }

  lemma PassesThenSurvives(q: Select, cols: Columns, interp: Interpretation)
    requires q.from.Derived? && q.from.inner.from.Derived? && Addressed(q)
    requires TightWhere(q.where) && TightWhere(q.from.inner.where) && Passes(PushedFilter(q), cols)
    ensures Survives(q, cols, interp) <==> Survives(q.from.inner.from.inner, cols, interp)
  {
    var inner := q.from.inner;
    ConjoinPasses(TranslateWhere(q.where), TranslateWhere(inner.where), cols);
    WhereKeeps(q, cols, interp);
    WhereKeeps(inner, cols, interp);
    assert Survives(inner, cols, interp) <==> Survives(inner.from.inner, cols, interp);
  }

  /** A WHERE two levels down or more is not sent: nothing is added for it exactly when the
      filter that is sent implies it. */
  lemma DeepWhereIff(q: Select)
    requires q.from.Derived? && q.from.inner.from.Derived? && Addressed(q)
    requires TightWhere(q.where) && TightWhere(q.from.inner.where)
    ensures AddsNone(q) <==> DeepImplied(q)
  {
    forall cols: Columns, interp: Interpretation | Passes(PushedFilter(q), cols)
      ensures Survives(q, cols, interp) <==> Survives(q.from.inner.from.inner, cols, interp)
    {
      PassesThenSurvives(q, cols, interp);
    }
  }

  // ---- What comes back ------------------------------------------------------

  predicate NoLimitBelow(q: Select) {
    q.from.Derived? ==> q.from.inner.limit.None? && NoLimitBelow(q.from.inner)
  }

  lemma {:induction false} FilterBoth<T>(p: T -> bool, q: T -> bool, r: T -> bool, s: seq<T>)
    requires forall i :: 0 <= i < |s| ==> r(s[i]) == (p(s[i]) && q(s[i]))
    ensures Filter(p, Filter(q, s)) == Filter(r, s)
  {
    if s != [] {
      var front, last := s[..|s| - 1], s[|s| - 1];
      FilterBoth(p, q, r, front);
      FilterSnoc(p, Filter(q, front), last);
    }
  }

  /** Without a LIMIT below, the result is made of the rows that survive. */
  lemma {:induction false} SourcesSurvive<T>(q: Select, base: seq<T>, cols: T -> Columns, interp: Interpretation)
    requires FlatBelow(q) && NoLimitBelow(q)
    ensures Sources(q, base, cols, interp) == Limited(q.limit, Filter(SurvivesAt(q, cols, interp), base))
  {
    if q.from.Derived? {
      SourcesSurvive(q.from.inner, base, cols, interp);
      FilterBoth(WantedAt(q, cols, interp), SurvivesAt(q.from.inner, cols, interp), SurvivesAt(q, cols, interp), base);
    } else {
      SameFilter(WantedAt(q, cols, interp), SurvivesAt(q, cols, interp), base);
    }
  }

  /** Nothing filters again after the source: with a safe filter every row of the result comes
      back, with a tight one nothing else does, and with both exactly the result. */
  lemma PushdownReturns<T>(q: Select, base: seq<T>, cols: T -> Columns, interp: Interpretation)
    requires FlatBelow(q) && NoLimitBelow(q) && Addressed(q)
    ensures
      var survives, result, back :=
        SurvivesAt(q, cols, interp), Sources(q, base, cols, interp), Returned(q, base, cols);
      && (SafeSelect(q) && q.limit.None? ==> Filter(survives, back) == result)
      && (TightSelect(q) && q.limit.None? ==> Filter(survives, back) == back)
      && (SafeSelect(q) && TightSelect(q) ==> back == result)
  {
    var survives, passes := SurvivesAt(q, cols, interp), PassesAt(q, cols);
    SourcesSurvive(q, base, cols, interp);
    forall t: T
      ensures SafeSelect(q) && survives(t) ==> passes(t)
      ensures TightSelect(q) && passes(t) ==> survives(t)
    {
      if SafeSelect(q) && survives(t) { PushedFilterKeeps(q, cols(t), interp); }
      if TightSelect(q) && passes(t) { PushedFilterAddsNone(q, cols(t), interp); }
    }
    if SafeSelect(q) { FilterImplied(passes, survives, base); }
    if TightSelect(q) { SameFilterOn(survives, passes, Filter(passes, base), base); }
    if SafeSelect(q) && TightSelect(q) { SameFilter(survives, passes, base); }
  }

  lemma SameFilterOn<T>(p: T -> bool, q: T -> bool, kept: seq<T>, base: seq<T>)
    requires kept == Filter(q, base) && forall i :: 0 <= i < |base| ==> (q(base[i]) ==> p(base[i]))
    ensures Filter(p, kept) == kept
  {
    FilterBoth(p, q, q, base);
  }

  // ---- A column under another name ------------------------------------------

  ghost predicate LosesNone(q: Select) {
    forall cols: Columns, interp: Interpretation :: Survives(q, cols, interp) ==> Passes(PushedFilter(q), cols)
  }

  ghost predicate AddsNone(q: Select) {
    forall cols: Columns, interp: Interpretation :: Passes(PushedFilter(q), cols) ==> Survives(q, cols, interp)
  }

  /** The filter is true where every field has the value `v`. */
  predicate TrueFor(f: FilterExpr, v: ScalarValue) { Eval(f, (_: string) => v).True? }

  /** The expression can have any value whatever the column `x` holds. */
  predicate Independent(e: SqlExpr, x: string) {
    (ColumnName(e).Some? && ColumnName(e).value != x) || e.Other?
  }

  /** `SELECT ... FROM (SELECT e AS x FROM t) WHERE p(x)`. */
  predicate RenamedQuery(q: Select, x: string) {
    && q.where.Some? && Exact(q.where.value)
    && q.from.Derived? && !q.from.inner.from.Derived? && q.from.inner.where.None?
    && Lookup(q.from.inner.items, x).Some? && Independent(Lookup(q.from.inner.items, x).value, x)
  }

  /** A base row whose column `x` holds `w` while the derived column `x` comes out as `u`. */
  function SplitColumns(x: string, u: ScalarValue, w: ScalarValue): Columns { name => if name == x then w else u }

  function Always(u: ScalarValue): Interpretation { (e, c) => u }

  lemma IndependentValue(e: SqlExpr, x: string, u: ScalarValue, w: ScalarValue)
    requires Independent(e, x)
    ensures ValueOf(e, SplitColumns(x, u, w), At(Always(u), SplitColumns(x, u, w))) == u
  {
    if ColumnName(e).Some? { ColumnValue(e, SplitColumns(x, u, w), At(Always(u), SplitColumns(x, u, w))); }
  }

  /** The query judges the derived value, the pushed filter the base column. */
  lemma RenamedRow(q: Select, x: string, f: FilterExpr, cols: Columns, interp: Interpretation, u: ScalarValue)
    requires RenamedQuery(q, x) && Some(f) == Translate(q.where.value) && FilterFields(f) == {x}
    requires u == ValueOf(Lookup(q.from.inner.items, x).value, cols, At(interp, cols))
    ensures Survives(q, cols, interp) <==> TrueFor(f, u)
    ensures Passes(PushedFilter(q), cols) <==> TrueFor(f, cols(x))
  {
    var seen := Seen(q, cols, interp);
    ExactAgrees(q.where.value, seen, At(interp, seen));
    assert Seen(q.from.inner, cols, interp) == cols;
    assert seen == Output(q.from.inner.items, cols, interp) && seen(x) == u;
    EvalAgrees(f, seen, (_: string) => u);
    EvalAgrees(f, cols, (_: string) => cols(x));
    assert Survives(q.from.inner, cols, interp);
  }

  lemma RenamedPair(q: Select, x: string, f: FilterExpr, u: ScalarValue, w: ScalarValue)
    requires RenamedQuery(q, x) && Some(f) == Translate(q.where.value) && FilterFields(f) == {x}
    ensures
      var cols, interp := SplitColumns(x, u, w), Always(u);
      (Survives(q, cols, interp) <==> TrueFor(f, u)) && (Passes(PushedFilter(q), cols) <==> TrueFor(f, w))
  {
    IndependentValue(Lookup(q.from.inner.items, x).value, x, u, w);
    RenamedRow(q, x, f, SplitColumns(x, u, w), Always(u), u);
  }

  /** A predicate on a renamed or computed column loses no row, and equally adds none, exactly
      when it is never true or always true: a comparison only when it is never true. */
  lemma RenamedIff(q: Select, x: string, f: FilterExpr)
    requires RenamedQuery(q, x) && Some(f) == Translate(q.where.value) && FilterFields(f) == {x}
    ensures LosesNone(q) <==> (forall v :: !TrueFor(f, v)) || (forall v :: TrueFor(f, v))
    ensures AddsNone(q) <==> (forall v :: !TrueFor(f, v)) || (forall v :: TrueFor(f, v))
    ensures f.Comparison? ==> (LosesNone(q) <==> forall v :: !TrueFor(f, v))
  {
    if u, w :| TrueFor(f, u) && !TrueFor(f, w) {
      RenamedPair(q, x, f, u, w);
      RenamedPair(q, x, f, w, u);
      assert !LosesNone(q) && !AddsNone(q);
    } else {
      assert (forall v :: !TrueFor(f, v)) || (forall v :: TrueFor(f, v));
      forall cols: Columns, interp: Interpretation
        ensures Survives(q, cols, interp) <==> Passes(PushedFilter(q), cols)
      {
        RenamedRow(q, x, f, cols, interp, ValueOf(Lookup(q.from.inner.items, x).value, cols, At(interp, cols)));
      }
    }
    assert f.Comparison? ==> !TrueFor(f, Null);
  }

  // ---- A LIMIT inside -------------------------------------------------------

  lemma LimitedFront<T>(m: Option<nat>, a: seq<T>, b: seq<T>)
    ensures Limited(m, a + b) == Limited(m, a) <==> b == [] || (m.Some? && m.value <= |a|)
  {
    if b == [] {
      assert a + b == a;
    } else if m.Some? && m.value <= |a| {
      assert (a + b)[..m.value] == a[..m.value];
    } else {
      assert |Limited(m, a + b)| > |Limited(m, a)|;
    }
  }

  /** The first `n` elements, filtered and cut, against all of them filtered and cut. */
  lemma CutInside<T>(p: T -> bool, s: seq<T>, n: nat, m: Option<nat>)
    ensures Limited(m, Filter(p, s)) == Limited(m, Filter(p, Take(s, n))) <==>
      || n >= |s|
      || (forall i :: n <= i < |s| ==> !p(s[i]))
      || (m.Some? && m.value <= |Filter(p, Take(s, n))|)
  {
    if n < |s| {
      assert s == s[..n] + s[n..];
      FilterAppend(p, s[..n], s[n..]);
      FilterTailNone(p, s, n);
      LimitedFront(m, Filter(p, s[..n]), Filter(p, s[n..]));
    }
  }

  /** The code ignores the LIMIT of a derived table: the right rows come back exactly when it
      cuts nothing off, no row it cuts off is wanted, or the outer LIMIT is reached before. */
  lemma InnerLimitIff<T>(q: Select, base: seq<T>, cols: T -> Columns, interp: Interpretation)
    requires q.from.Derived? && !q.from.inner.from.Derived? && q.from.inner.limit.Some? && FlatBelow(q)
    requires SafeSelect(q) && TightSelect(q) && Addressed(q)
    ensures
      var n, wanted := q.from.inner.limit.value, WantedAt(q, cols, interp);
      var s := Filter(WantedAt(q.from.inner, cols, interp), base);
      Returned(q, base, cols) == Sources(q, base, cols, interp) <==>
      || n >= |s|
      || (forall i :: n <= i < |s| ==> !wanted(s[i]))
      || (q.limit.Some? && q.limit.value <= |Filter(wanted, Take(s, n))|)
  {
    var inner := q.from.inner;
    var n, wanted, s := inner.limit.value, WantedAt(q, cols, interp), Filter(WantedAt(inner, cols, interp), base);
    forall t: T ensures PassesAt(q, cols)(t) <==> wanted(t) && WantedAt(inner, cols, interp)(t) {
      assert Survives(q, cols(t), interp) <==> Wanted(q, cols(t), interp) && Wanted(inner, cols(t), interp) by {
        assert Survives(inner, cols(t), interp) <==> Wanted(inner, cols(t), interp);
      }
      if Survives(q, cols(t), interp) { PushedFilterKeeps(q, cols(t), interp); }
      if Passes(PushedFilter(q), cols(t)) { PushedFilterAddsNone(q, cols(t), interp); }
    }
    FilterBoth(wanted, WantedAt(inner, cols, interp), PassesAt(q, cols), base);
    CutInside(wanted, s, n, q.limit);
  }
}
