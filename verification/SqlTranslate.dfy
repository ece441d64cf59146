/** Translation of a SQL predicate into a pushable filter, which drops what a
    connector cannot evaluate.  What is dropped weakens or strengthens the filter
    depending on how many negations sit above it. */
module SqlTranslate {
  import opened Base
  import opened Values
  import opened LikeEscape

  const I64_MAX: int := 0x7FFF_FFFF_FFFF_FFFF

  datatype Literal =
    | WholeNumber(digits: nat)
    | DecimalNumber(value: real)
    | Text(s: string)
    | Bool(b: bool)
    | NullLiteral
    | OtherLiteral(text: string)

  datatype BinaryOp =
    | AndOp | OrOp | EqOp | NotEqOp | LtOp | LtEqOp | GtOp | GtEqOp
    | OtherOp(text: string)

  datatype SqlExpr =
    | Identifier(name: string)
    | CompoundIdentifier(parts: seq<string>)
    | Function(text: string)
    | Value(lit: Literal)
    | Minus(e: SqlExpr)
    | NotExpr(e: SqlExpr)
    | Binary(l: SqlExpr, op: BinaryOp, r: SqlExpr)
    | IsNullExpr(e: SqlExpr)
    | IsNotNullExpr(e: SqlExpr)
    | InList(e: SqlExpr, list: seq<SqlExpr>, negated: bool)
    | LikeExpr(e: SqlExpr, pattern: SqlExpr, negated: bool, caseless: bool, escape: Option<char>)
    | Nested(e: SqlExpr)
    | Between(e: SqlExpr, low: SqlExpr, high: SqlExpr, negated: bool)
    | Other(text: string)

  // ---- What SQL means -------------------------------------------------------

  /** A valuation: columns by name, and every expression this model does not
      interpret (arithmetic, subqueries, casts, ...) by itself. */
  type Columns = string -> ScalarValue
  type Uninterpreted = SqlExpr -> ScalarValue

  function LiteralValue(lit: Literal): Option<ScalarValue> {
    match lit
    case WholeNumber(n) => Some(if n <= I64_MAX then Int64(n) else Float64(n as real))
    case DecimalNumber(r) => Some(Float64(r))
    case Text(s) => Some(Utf8(s))
    case Bool(b) => Some(Boolean(b))
    case NullLiteral => Some(Null)
    case OtherLiteral(_) => None
  }

  function ToTruth(v: ScalarValue): Truth {
    if v.Boolean? then Of(v.b) else Unknown
  }

  function FromTruth(t: Truth): ScalarValue {
    match t case True => Boolean(true) case False => Boolean(false) case Unknown => Null
  }

  function Negate(v: ScalarValue): Option<ScalarValue> {
    match v
    case Int64(n) => Some(Int64(-n))
    case Float64(r) => Some(Float64(-r))
    case _ => None
  }

  function NegatedIf(negated: bool, t: Truth): Truth {
    if negated then Not3(t) else t
  }

  function OrderOp(op: BinaryOp): Option<ComparisonOp> {
    match op
    case EqOp => Some(Eq)
    case NotEqOp => Some(Neq)
    case LtOp => Some(Lt)
    case LtEqOp => Some(Lte)
    case GtOp => Some(Gt)
    case GtEqOp => Some(Gte)
    case _ => None
  }

  /** The value of a SQL expression on a row. */
  function ValueOf(e: SqlExpr, cols: Columns, other: Uninterpreted): ScalarValue {
    match e
    case Identifier(name) => cols(name)
    case CompoundIdentifier(parts) => if parts == [] then other(e) else cols(parts[|parts| - 1])
    case Function(text) => cols(text)
    case Value(lit) => if LiteralValue(lit).Some? then LiteralValue(lit).value else other(e)
    case Minus(x) =>
      var v := Negate(ValueOf(x, cols, other));
      if v.Some? then v.value else other(e)
    case Nested(x) => ValueOf(x, cols, other)
    case Other(_) => other(e)
    case NotExpr(x) => FromTruth(Not3(ToTruth(ValueOf(x, cols, other))))
    case Binary(l, op, r) =>
      var a, b := ValueOf(l, cols, other), ValueOf(r, cols, other);
      if op.AndOp? then FromTruth(And3(ToTruth(a), ToTruth(b)))
      else if op.OrOp? then FromTruth(Or3(ToTruth(a), ToTruth(b)))
      else if OrderOp(op).Some? then FromTruth(Holds(OrderOp(op).value, a, b, None))
      else other(e)
    case IsNullExpr(x) => Boolean(ValueOf(x, cols, other).Null?)
    case IsNotNullExpr(x) => Boolean(!ValueOf(x, cols, other).Null?)
    case InList(x, list, negated) =>
      FromTruth(NegatedIf(negated, In3(ValueOf(x, cols, other), ValuesOf(list, cols, other))))
    case LikeExpr(x, pattern, negated, caseless, escape) =>
      FromTruth(NegatedIf(negated,
        Holds(if caseless then ILike else Like, ValueOf(x, cols, other), ValueOf(pattern, cols, other), escape)))
    case Between(x, low, high, negated) =>
      var v := ValueOf(x, cols, other);
      FromTruth(NegatedIf(negated,
        And3(Holds(Lte, ValueOf(low, cols, other), v, None), Holds(Lte, v, ValueOf(high, cols, other), None))))
  }

  function ValuesOf(list: seq<SqlExpr>, cols: Columns, other: Uninterpreted): (vs: seq<ScalarValue>)
    ensures |vs| == |list|
  {
    if list == [] then []
    else ValuesOf(list[..|list| - 1], cols, other) + [ValueOf(list[|list| - 1], cols, other)]
  }

  /** The truth of a SQL predicate on a row. */
  function TruthOf(e: SqlExpr, cols: Columns, other: Uninterpreted): Truth {
    ToTruth(ValueOf(e, cols, other))
  }

  // ---- The translation ------------------------------------------------------

  function ColumnName(e: SqlExpr): Option<string> {
    match e
    case Identifier(name) => Some(name)
    case CompoundIdentifier(parts) => if parts == [] then None else Some(parts[|parts| - 1])
    case Function(text) => Some(text)
    case _ => None
  }

  function ToScalar(e: SqlExpr): Option<ScalarValue> {
    match e
    case Value(lit) => LiteralValue(lit)
    case Minus(x) => if ToScalar(x).None? then None else Negate(ToScalar(x).value)
    case _ => None
  }

  /** `filter_map`: the elements of an IN list that are literals. */
  function Scalars(list: seq<SqlExpr>): (vs: seq<ScalarValue>)
    ensures |vs| <= |list|
  {
    if list == [] then []
    else
      var rest, last := Scalars(list[..|list| - 1]), ToScalar(list[|list| - 1]);
      if last.Some? then rest + [last.value] else rest
  }

  function Flip(op: ComparisonOp): ComparisonOp {
    match op
    case Lt => Gt
    case Lte => Gte
    case Gt => Lt
    case Gte => Lte
    case _ => op
  }

  function NotIf(negated: bool, f: FilterExpr): FilterExpr {
    if negated then Not(f) else f
  }

  function Translate(e: SqlExpr): Option<FilterExpr> {
    match e
    case Binary(l, op, r) =>
      if op.AndOp? then Conjoin(Translate(l), Translate(r))
      else if op.OrOp? then
        if Translate(l).Some? && Translate(r).Some? then Some(Or(Translate(l).value, Translate(r).value))
        else None
      else TranslateComparison(l, op, r)
    case NotExpr(x) =>
      if Translate(x).None? then None else Some(Not(Translate(x).value))
    case IsNullExpr(x) =>
      if ColumnName(x).None? then None else Some(IsNull(ColumnName(x).value))
    case IsNotNullExpr(x) =>
      if ColumnName(x).None? then None else Some(IsNotNull(ColumnName(x).value))
    case InList(x, list, negated) =>
      if ColumnName(x).None? then None
      else Some(NotIf(negated, In(ColumnName(x).value, Scalars(list))))
    case LikeExpr(x, pattern, negated, caseless, _) =>
      if ColumnName(x).None? || ToScalar(pattern).None? then None
      else
        Some(NotIf(negated,
          Comparison(ColumnName(x).value, if caseless then ILike else Like, ToScalar(pattern).value)))
    case Nested(x) => Translate(x)
    case Between(x, low, high, negated) =>
      if ColumnName(x).None? || ToScalar(low).None? || ToScalar(high).None? then None
      else
        Some(NotIf(negated,
          And(Comparison(ColumnName(x).value, Gte, ToScalar(low).value),
              Comparison(ColumnName(x).value, Lte, ToScalar(high).value))))
    case _ => None
  }

  function TranslateComparison(l: SqlExpr, op: BinaryOp, r: SqlExpr): Option<FilterExpr> {
    if OrderOp(op).None? then None
    else if ColumnName(l).Some? && ToScalar(r).Some? then
      Some(Comparison(ColumnName(l).value, OrderOp(op).value, ToScalar(r).value))
    else if ToScalar(l).Some? && ColumnName(r).Some? then
      Some(Comparison(ColumnName(r).value, Flip(OrderOp(op).value), ToScalar(l).value))
    else None
  }

  // ---- When the translation is faithful -------------------------------------

  predicate AllLiterals(list: seq<SqlExpr>) {
    forall i :: 0 <= i < |list| ==> ToScalar(list[i]).Some?
  }

  /** The ESCAPE clause of a LIKE, which the translation leaves out, quotes nothing. */
  predicate EscapeIdle(e: SqlExpr)
    requires e.LikeExpr?
  {
    e.escape.None? ||
    match ToScalar(e.pattern)
      case Some(Utf8(p)) => Quoted(p, e.escape.value) == []
      case _ => true
  }

  /** Without the clause at least as many texts match. */
  predicate EscapeHarmless(e: SqlExpr)
    requires e.LikeExpr?
  {
    e.escape.None? ||
    match ToScalar(e.pattern)
      case Some(Utf8(p)) => QuoteHarmless(p, e.escape.value)
      case _ => true
  }

  /** Nothing at all is dropped: no conjunct, no list element, no working ESCAPE. */
  predicate Exact(e: SqlExpr) {
    match e
    case Binary(l, op, r) =>
      if op.AndOp? || op.OrOp? then Exact(l) && Exact(r) else Translate(e).Some?
    case NotExpr(x) => Exact(x)
    case Nested(x) => Exact(x)
    case InList(x, list, _) => ColumnName(x).Some? && AllLiterals(list)
    case LikeExpr(_, _, _, _, _) => Translate(e).Some? && EscapeIdle(e)
    case _ => Translate(e).Some?
  }

  /** Whether what is dropped errs on the safe side.  Under an even number of
      negations the filter must not turn a true predicate down, under an odd number
      it must not lift a false one: a lost conjunct is harmless only in the first
      place, a lost IN element only in the second (NOT IN counts as a negation), and
      a lost ESCAPE that quotes something only in the first and only if harmless (NOT
      LIKE counts as a negation). */
  predicate Safe(e: SqlExpr, positive: bool) {
    match e
    case Binary(l, op, r) =>
      if op.AndOp? then
        Safe(l, positive) && Safe(r, positive) && (positive || Translate(l).Some? == Translate(r).Some?)
      else if op.OrOp? then Translate(e).Some? ==> Safe(l, positive) && Safe(r, positive)
      else true
    case NotExpr(x) => Safe(x, !positive)
    case Nested(x) => Safe(x, positive)
    case InList(_, list, negated) => AllLiterals(list) || positive == negated
    case LikeExpr(_, _, negated, _, _) => EscapeIdle(e) || (positive != negated && EscapeHarmless(e))
    case _ => true
  }

  /** Whether what is dropped errs on the other side: the filter admits no row the predicate
      does not.  Every polarity is the opposite of `Safe`. */
  predicate Tight(e: SqlExpr, positive: bool) {
    match e
    case Binary(l, op, r) =>
      if op.AndOp? then
        && (Translate(l).Some? ==> Tight(l, positive)) && (Translate(r).Some? ==> Tight(r, positive))
        && (!positive || Translate(l).Some? == Translate(r).Some?)
      else if op.OrOp? then Translate(e).Some? ==> Tight(l, positive) && Tight(r, positive)
      else true
    case NotExpr(x) => Tight(x, !positive)
    case Nested(x) => Tight(x, positive)
    case InList(_, list, negated) => AllLiterals(list) || positive != negated
    case LikeExpr(_, _, negated, _, _) => EscapeIdle(e) || (positive == negated && EscapeHarmless(e))
    case _ => true
  }

  // ---- Leaves ---------------------------------------------------------------

  lemma ColumnValue(e: SqlExpr, cols: Columns, other: Uninterpreted)
    requires ColumnName(e).Some?
    ensures ValueOf(e, cols, other) == cols(ColumnName(e).value)
  {}

  lemma {:induction false} ScalarValueOf(e: SqlExpr, cols: Columns, other: Uninterpreted)
    requires ToScalar(e).Some?
    ensures ValueOf(e, cols, other) == ToScalar(e).value
  {
    if e.Minus? { ScalarValueOf(e.e, cols, other); }
  }

  /** A pushed integer literal is always a 64-bit integer: negation cannot overflow. */
  lemma {:induction false} ScalarInRange(e: SqlExpr)
    requires ToScalar(e).Some? && ToScalar(e).value.Int64?
    ensures -I64_MAX <= ToScalar(e).value.n <= I64_MAX
  {
    if e.Minus? { ScalarInRange(e.e); }
  }

  /** The literals of a list are among its values, and all of them if it has nothing else. */
  lemma {:induction false} ScalarsWithin(list: seq<SqlExpr>, cols: Columns, other: Uninterpreted)
    ensures forall x :: x in Scalars(list) ==> x in ValuesOf(list, cols, other)
    ensures AllLiterals(list) ==> Scalars(list) == ValuesOf(list, cols, other)
  {
    if list != [] {
      var last := list[|list| - 1];
      ScalarsWithin(list[..|list| - 1], cols, other);
      if ToScalar(last).Some? { ScalarValueOf(last, cols, other); }
    }
  }

  /** Dropping elements of an IN list keeps every falsehood, and keeps every truth
      when nothing was in fact dropped. */
  lemma InListDrop(v: ScalarValue, list: seq<SqlExpr>, cols: Columns, other: Uninterpreted)
    ensures In3(v, ValuesOf(list, cols, other)).False? ==> In3(v, Scalars(list)).False?
    ensures AllLiterals(list) ==> In3(v, ValuesOf(list, cols, other)) == In3(v, Scalars(list))
  {
    ScalarsWithin(list, cols, other);
    In3Subset(v, Scalars(list), ValuesOf(list, cols, other));
  }

  /** `5 < a` and `a > 5` are the same predicate. */
  lemma FlipHolds(op: ComparisonOp, a: ScalarValue, b: ScalarValue)
    requires IsOrderOp(op)
    ensures Holds(op, a, b, None) == Holds(Flip(op), b, a, None)
  {
    CompareReverse(a, b);
  }

  lemma ComparisonTruth(l: SqlExpr, op: BinaryOp, r: SqlExpr, cols: Columns, other: Uninterpreted)
    requires OrderOp(op).Some?
    ensures TruthOf(Binary(l, op, r), cols, other) ==
      Holds(OrderOp(op).value, ValueOf(l, cols, other), ValueOf(r, cols, other), None)
  {}

  lemma ComparisonAgrees(l: SqlExpr, op: BinaryOp, r: SqlExpr, cols: Columns, other: Uninterpreted)
    requires TranslateComparison(l, op, r).Some?
    ensures Eval(TranslateComparison(l, op, r).value, cols) == TruthOf(Binary(l, op, r), cols, other)
  {
    ComparisonTruth(l, op, r, cols, other);
    if ColumnName(l).Some? && ToScalar(r).Some? {
      ColumnValue(l, cols, other);
      ScalarValueOf(r, cols, other);
    } else {
      ScalarValueOf(l, cols, other);
      ColumnValue(r, cols, other);
      FlipHolds(OrderOp(op).value, ToScalar(l).value, cols(ColumnName(r).value));
    }
  }

  lemma BetweenAgrees(e: SqlExpr, cols: Columns, other: Uninterpreted)
    requires e.Between? && Translate(e).Some?
    ensures Eval(Translate(e).value, cols) == TruthOf(e, cols, other)
  {
    ColumnValue(e.e, cols, other);
    ScalarValueOf(e.low, cols, other);
    ScalarValueOf(e.high, cols, other);
    var field, low, high := ColumnName(e.e).value, ToScalar(e.low).value, ToScalar(e.high).value;
    FlipHolds(Lte, low, cols(field));
    var from, to := Comparison(field, Gte, low), Comparison(field, Lte, high);
    assert Eval(And(from, to), cols) == And3(Eval(from, cols), Eval(to, cols));
  }

  lemma LikeAgrees(e: SqlExpr, cols: Columns, other: Uninterpreted)
    requires e.LikeExpr? && Translate(e).Some? && EscapeIdle(e)
    ensures Eval(Translate(e).value, cols) == TruthOf(e, cols, other)
  {
    ColumnValue(e.e, cols, other);
    ScalarValueOf(e.pattern, cols, other);
    var v, p := cols(ColumnName(e.e).value), ToScalar(e.pattern).value;
    if v.Utf8? && p.Utf8? && e.escape.Some? {
      IdleAgrees(v.s, p.s, e.escape.value, e.caseless);
    }
  }

  /** A harmless lost clause only widens LIKE and only narrows NOT LIKE. */
  lemma LikeKeeps(e: SqlExpr, cols: Columns, other: Uninterpreted)
    requires e.LikeExpr? && Translate(e).Some? && EscapeHarmless(e)
    ensures !e.negated && TruthOf(e, cols, other).True? ==> Eval(Translate(e).value, cols).True?
    ensures e.negated && TruthOf(e, cols, other).False? ==> Eval(Translate(e).value, cols).False?
  {
    ColumnValue(e.e, cols, other);
    ScalarValueOf(e.pattern, cols, other);
    var v, p := cols(ColumnName(e.e).value), ToScalar(e.pattern).value;
    if v.Utf8? && p.Utf8? && e.escape.Some? {
      if LikeMatches(v.s, p.s, e.escape, e.caseless) { HarmlessKeeps(v.s, p.s, e.escape.value, e.caseless); }
    }
  }

  /** And only narrows what LIKE turns down, and only widens what NOT LIKE does. */
  lemma LikeTight(e: SqlExpr, cols: Columns, other: Uninterpreted)
    requires e.LikeExpr? && Translate(e).Some? && EscapeHarmless(e)
    ensures e.negated && Eval(Translate(e).value, cols).True? ==> TruthOf(e, cols, other).True?
    ensures !e.negated && Eval(Translate(e).value, cols).False? ==> TruthOf(e, cols, other).False?
  {
    ColumnValue(e.e, cols, other);
    ScalarValueOf(e.pattern, cols, other);
    var v, p := cols(ColumnName(e.e).value), ToScalar(e.pattern).value;
    var op := if e.caseless then ILike else Like;
    if v.Utf8? && p.Utf8? && e.escape.Some? {
      if LikeMatches(v.s, p.s, e.escape, e.caseless) { HarmlessKeeps(v.s, p.s, e.escape.value, e.caseless); }
    }
    assert TruthOf(e, cols, other) == NegatedIf(e.negated, Holds(op, v, p, e.escape));
    assert Eval(Translate(e).value, cols) == NegatedIf(e.negated, Holds(op, v, p, None));
  }

  lemma NullTestAgrees(e: SqlExpr, cols: Columns, other: Uninterpreted)
    requires (e.IsNullExpr? || e.IsNotNullExpr?) && Translate(e).Some?
    ensures Eval(Translate(e).value, cols) == TruthOf(e, cols, other)
  {
    ColumnValue(e.e, cols, other);
  }

  /** The predicates that are translated whole. */
  lemma LeafAgrees(e: SqlExpr, cols: Columns, other: Uninterpreted)
    requires Translate(e).Some?
    requires !(e.Binary? && (e.op.AndOp? || e.op.OrOp?)) && !e.NotExpr? && !e.Nested? && !e.InList?
    requires e.LikeExpr? ==> EscapeIdle(e)
    ensures Eval(Translate(e).value, cols) == TruthOf(e, cols, other)
  {
    match e
    case Binary(l, op, r) => ComparisonAgrees(l, op, r, cols, other);
    case LikeExpr(_, _, _, _, _) => LikeAgrees(e, cols, other);
    case Between(_, _, _, _) => BetweenAgrees(e, cols, other);
    case IsNullExpr(_) => NullTestAgrees(e, cols, other);
    case IsNotNullExpr(_) => NullTestAgrees(e, cols, other);
  }

  /** Both sides of a list predicate, as membership of the column's value. */
  lemma InListTruth(e: SqlExpr, cols: Columns, other: Uninterpreted) returns (v: ScalarValue)
    requires e.InList? && Translate(e).Some?
    ensures TruthOf(e, cols, other) == NegatedIf(e.negated, In3(v, ValuesOf(e.list, cols, other)))
    ensures Eval(Translate(e).value, cols) == NegatedIf(e.negated, In3(v, Scalars(e.list)))
  {
    ColumnValue(e.e, cols, other);
    v := cols(ColumnName(e.e).value);
  }

  lemma InListAgrees(e: SqlExpr, cols: Columns, other: Uninterpreted)
    requires e.InList? && Translate(e).Some?
    ensures AllLiterals(e.list) ==> Eval(Translate(e).value, cols) == TruthOf(e, cols, other)
    ensures e.negated && TruthOf(e, cols, other).True? ==> Eval(Translate(e).value, cols).True?
    ensures !e.negated && TruthOf(e, cols, other).False? ==> Eval(Translate(e).value, cols).False?
  {
    var v := InListTruth(e, cols, other);
    InListDrop(v, e.list, cols, other);
  }

  /** What the literals of a list find, the whole list finds. */
  lemma InListFind(v: ScalarValue, list: seq<SqlExpr>, cols: Columns, other: Uninterpreted)
    ensures In3(v, Scalars(list)).True? ==> In3(v, ValuesOf(list, cols, other)).True?
  {
    ScalarsWithin(list, cols, other);
    In3Subset(v, Scalars(list), ValuesOf(list, cols, other));
  }

  lemma InListTight(e: SqlExpr, cols: Columns, other: Uninterpreted)
    requires e.InList? && Translate(e).Some?
    ensures AllLiterals(e.list) ==> Eval(Translate(e).value, cols) == TruthOf(e, cols, other)
    ensures !e.negated && Eval(Translate(e).value, cols).True? ==> TruthOf(e, cols, other).True?
    ensures e.negated && Eval(Translate(e).value, cols).False? ==> TruthOf(e, cols, other).False?
  {
    var v := InListTruth(e, cols, other);
    InListDrop(v, e.list, cols, other);
    InListFind(v, e.list, cols, other);
  }

  // ---- Main results ---------------------------------------------------------

  /** When nothing is dropped the filter and the predicate have the same truth value
      on every row, unknowns included. */
  lemma {:induction false} ExactAgrees(e: SqlExpr, cols: Columns, other: Uninterpreted)
    requires Exact(e)
    ensures Translate(e).Some? && Eval(Translate(e).value, cols) == TruthOf(e, cols, other)
  {
    if e.Binary? && (e.op.AndOp? || e.op.OrOp?) {
      ExactAgrees(e.l, cols, other);
      ExactAgrees(e.r, cols, other);
    } else if e.NotExpr? || e.Nested? {
      ExactAgrees(e.e, cols, other);
    } else if e.InList? {
      InListAgrees(e, cols, other);
    } else {
      LeafAgrees(e, cols, other);
    }
  }

  /** What a safe translation promises at a given polarity. */
  predicate Kept(positive: bool, sql: Truth, filter: Truth) {
    if positive then sql.True? ==> filter.True? else sql.False? ==> filter.False?
  }

  /** The polarity theorem: a safe predicate loses no row to its filter, and a safe
      negated one admits none it should not. */
  lemma {:induction false} SafeKeeps(e: SqlExpr, positive: bool, cols: Columns, other: Uninterpreted)
    requires Safe(e, positive) && Translate(e).Some?
    ensures Kept(positive, TruthOf(e, cols, other), Eval(Translate(e).value, cols))
  {
    if e.Binary? && (e.op.AndOp? || e.op.OrOp?) {
      if Translate(e.l).Some? { SafeKeeps(e.l, positive, cols, other); }
      if Translate(e.r).Some? { SafeKeeps(e.r, positive, cols, other); }
      ConnectiveTruth(e, cols, other);
    } else if e.NotExpr? {
      SafeKeeps(e.e, !positive, cols, other);
    } else if e.Nested? {
      SafeKeeps(e.e, positive, cols, other);
    } else if e.InList? {
      InListAgrees(e, cols, other);
    } else if e.LikeExpr? && !EscapeIdle(e) {
      LikeKeeps(e, cols, other);
    } else {
      LeafAgrees(e, cols, other);
    }
  }

  /** What a tight translation promises at a given polarity. */
  predicate Matched(positive: bool, sql: Truth, filter: Truth) {
    if positive then filter.True? ==> sql.True? else filter.False? ==> sql.False?
  }

  /** The dual: a tight predicate gains no row from its filter, and a tight negated one loses
      none. */
  lemma {:induction false} TightMatches(e: SqlExpr, positive: bool, cols: Columns, other: Uninterpreted)
    requires Tight(e, positive) && Translate(e).Some?
    ensures Matched(positive, TruthOf(e, cols, other), Eval(Translate(e).value, cols))
  {
    if e.Binary? && (e.op.AndOp? || e.op.OrOp?) {
      if Translate(e.l).Some? { TightMatches(e.l, positive, cols, other); }
      if Translate(e.r).Some? { TightMatches(e.r, positive, cols, other); }
      ConnectiveTruth(e, cols, other);
    } else if e.NotExpr? {
      TightMatches(e.e, !positive, cols, other);
    } else if e.Nested? {
      TightMatches(e.e, positive, cols, other);
    } else if e.InList? {
      InListTight(e, cols, other);
    } else if e.LikeExpr? && !EscapeIdle(e) {
      LikeTight(e, cols, other);
    } else {
      LeafAgrees(e, cols, other);
    }
  }

  lemma ConnectiveTruth(e: SqlExpr, cols: Columns, other: Uninterpreted)
    requires e.Binary? && (e.op.AndOp? || e.op.OrOp?)
    ensures e.op.AndOp? ==> TruthOf(e, cols, other) == And3(TruthOf(e.l, cols, other), TruthOf(e.r, cols, other))
    ensures e.op.OrOp? ==> TruthOf(e, cols, other) == Or3(TruthOf(e.l, cols, other), TruthOf(e.r, cols, other))
  {}
}
