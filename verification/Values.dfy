/** Scalars, rows, three-valued truth (section 8.12 of SQL-92, ISO/IEC 9075:1992)
    and the pushable filter language of the connectors. */
module Values {
  import opened Base

  datatype ScalarValue =
    | Null
    | Boolean(b: bool)
    | Int64(n: int)
    | Float64(r: real)
    | Utf8(s: string)

  datatype Truth = True | False | Unknown

  function Not3(t: Truth): Truth {
    match t case True => False case False => True case Unknown => Unknown
  }

  function And3(a: Truth, b: Truth): Truth {
    if a.False? || b.False? then False
    else if a.True? && b.True? then True
    else Unknown
  }

  function Or3(a: Truth, b: Truth): Truth {
    if a.True? || b.True? then True
    else if a.False? && b.False? then False
    else Unknown
  }

  function Of(b: bool): Truth { if b then True else False }

  datatype Ordering = Less | Equal | Greater

  function Reverse(o: Ordering): Ordering {
    match o case Less => Greater case Equal => Equal case Greater => Less
  }

  function CompareReals(a: real, b: real): Ordering {
    if a < b then Less else if a == b then Equal else Greater
  }

  function CompareStrings(a: string, b: string): Ordering {
    if a == [] then (if b == [] then Equal else Less)
    else if b == [] then Greater
    else if a[0] < b[0] then Less
    else if a[0] > b[0] then Greater
    else CompareStrings(a[1..], b[1..])
  }

  predicate Numeric(v: ScalarValue) { v.Int64? || v.Float64? }

  function AsReal(v: ScalarValue): real
    requires Numeric(v)
  {
    if v.Int64? then v.n as real else v.r
  }

  /** How two values compare; nothing when one is null or their types differ. */
  function Compare(a: ScalarValue, b: ScalarValue): Option<Ordering> {
    if Numeric(a) && Numeric(b) then Some(CompareReals(AsReal(a), AsReal(b)))
    else if a.Boolean? && b.Boolean? then
      Some(if a.b == b.b then Equal else if b.b then Less else Greater)
    else if a.Utf8? && b.Utf8? then Some(CompareStrings(a.s, b.s))
    else None
  }

  datatype ComparisonOp = Eq | Neq | Lt | Lte | Gt | Gte | Like | ILike | Contains

  function LowerCase(ch: char): char { if 'A' <= ch <= 'Z' then ch - 'A' + 'a' else ch }

  /** The same character, or with `caseless` the same letter in either case. */
  predicate SameChar(a: char, b: char, caseless: bool) {
    a == b || (caseless && LowerCase(a) == LowerCase(b))
  }

  /** `%` is any run, `_` any one character, and `escape`, as written, quotes the next one. */
  predicate LikeMatches(s: string, pattern: string, escape: Option<char>, caseless: bool)
    decreases |pattern|, |s|
  {
    if pattern == [] then s == []
    else if escape == Some(pattern[0]) && |pattern| >= 2 then
      s != [] && SameChar(s[0], pattern[1], caseless) && LikeMatches(s[1..], pattern[2..], escape, caseless)
    else if pattern[0] == '%' then
      LikeMatches(s, pattern[1..], escape, caseless) || (s != [] && LikeMatches(s[1..], pattern, escape, caseless))
    else
      && s != [] && (pattern[0] == '_' || SameChar(s[0], pattern[0], caseless))
      && LikeMatches(s[1..], pattern[1..], escape, caseless)
  }

  predicate IsOrderOp(op: ComparisonOp) {
    op in {Eq, Neq, Lt, Lte, Gt, Gte}
  }

  predicate OrderHolds(op: ComparisonOp, o: Ordering)
    requires IsOrderOp(op)
  {
    match op
    case Eq => o.Equal?
    case Neq => !o.Equal?
    case Lt => o.Less?
    case Lte => !o.Greater?
    case Gt => o.Greater?
    case _ => !o.Less?
  }

  function TextMatches(op: ComparisonOp, s: string, pattern: string, escape: Option<char>): bool {
    match op
    case Contains => LikeMatches(s, "%" + pattern + "%", escape, false)
    case _ => LikeMatches(s, pattern, escape, op.ILike?)
  }

  /** `a op b` in three-valued logic; `escape` matters to the text operators only. */
  function Holds(op: ComparisonOp, a: ScalarValue, b: ScalarValue, escape: Option<char>): Truth {
    if IsOrderOp(op) then
      match Compare(a, b) {
        case None => Unknown
        case Some(o) => Of(OrderHolds(op, o))
      }
    else if a.Utf8? && b.Utf8? then Of(TextMatches(op, a.s, b.s, escape))
    else Unknown
  }

  /** `v IN (values)`: the disjunction of the equalities. */
  function In3(v: ScalarValue, values: seq<ScalarValue>): Truth {
    if values == [] then False
    else Or3(In3(v, values[..|values| - 1]), Holds(Eq, v, values[|values| - 1], None))
  }

  datatype FilterExpr =
    | And(l: FilterExpr, r: FilterExpr)
    | Or(l: FilterExpr, r: FilterExpr)
    | Not(e: FilterExpr)
    | Comparison(field: string, op: ComparisonOp, value: ScalarValue)
    | In(field: string, values: seq<ScalarValue>)
    | IsNull(field: string)
    | IsNotNull(field: string)

  /** The truth of a filter under a valuation of its field names. */
  function Eval(f: FilterExpr, cols: string -> ScalarValue): Truth {
    match f
    case And(l, r) => And3(Eval(l, cols), Eval(r, cols))
    case Or(l, r) => Or3(Eval(l, cols), Eval(r, cols))
    case Not(e) => Not3(Eval(e, cols))
    case Comparison(field, op, value) => Holds(op, cols(field), value, None)
    case In(field, values) => In3(cols(field), values)
    case IsNull(field) => Of(cols(field).Null?)
    case IsNotNull(field) => Of(!cols(field).Null?)
  }

  /** A missing filter lets every row through. */
  function Passes(f: Option<FilterExpr>, cols: string -> ScalarValue): bool {
    f.None? || Eval(f.value, cols).True?
  }

  function Conjoin(a: Option<FilterExpr>, b: Option<FilterExpr>): Option<FilterExpr> {
    match (a, b)
    case (Some(x), Some(y)) => Some(And(x, y))
    case (Some(x), None) => a
    case (None, _) => b
  }

  /** A row of a result: column name to value. */
  type Row = map<string, ScalarValue>

  function Column(row: Row, name: string): ScalarValue {
    if name in row then row[name] else Null
  }

  lemma {:induction false} CompareStringsReverse(a: string, b: string)
    ensures CompareStrings(b, a) == Reverse(CompareStrings(a, b))
    ensures CompareStrings(a, b).Equal? <==> a == b
  {
    if a != [] && b != [] {
      CompareStringsReverse(a[1..], b[1..]);
      assert a == [a[0]] + a[1..] && b == [b[0]] + b[1..];
    }
  }

  lemma {:induction false} CompareStringsTransitive(a: string, b: string, c: string)
    requires !CompareStrings(a, b).Greater? && !CompareStrings(b, c).Greater?
    ensures !CompareStrings(a, c).Greater?
  {
    if a != [] && b != [] && c != [] && a[0] == b[0] == c[0] {
      CompareStringsTransitive(a[1..], b[1..], c[1..]);
    }
  }

  lemma CompareReverse(a: ScalarValue, b: ScalarValue)
    ensures Compare(a, b).None? <==> Compare(b, a).None?
    ensures Compare(a, b).Some? ==> Compare(b, a) == Some(Reverse(Compare(a, b).value))
  {
    if a.Utf8? && b.Utf8? { CompareStringsReverse(a.s, b.s); }
  }

  /** An IN list with one more element can only gain truth and lose falsehood. */
  lemma {:induction false} In3Member(v: ScalarValue, values: seq<ScalarValue>)
    ensures In3(v, values).True? <==> exists i :: 0 <= i < |values| && Holds(Eq, v, values[i], None).True?
  {
    if values != [] {
      In3Member(v, values[..|values| - 1]);
    }
  }

  lemma {:induction false} In3Refuted(v: ScalarValue, values: seq<ScalarValue>)
    ensures In3(v, values).False? <==> forall i :: 0 <= i < |values| ==> Holds(Eq, v, values[i], None).False?
  {
    if values != [] {
      In3Refuted(v, values[..|values| - 1]);
    }
  }

  /** Fewer values: what they hold stays held, and what all rule out stays ruled out. */
  lemma In3Subset(v: ScalarValue, few: seq<ScalarValue>, many: seq<ScalarValue>)
    requires forall x :: x in few ==> x in many
    ensures In3(v, few).True? ==> In3(v, many).True?
    ensures In3(v, many).False? ==> In3(v, few).False?
  {
    In3Member(v, few);
    In3Member(v, many);
    In3Refuted(v, few);
    In3Refuted(v, many);
    forall i | 0 <= i < |few| ensures exists k :: 0 <= k < |many| && many[k] == few[i] { assert few[i] in many; }
  }

  /** The fields a filter reads, and nothing else decides its truth. */
  function FilterFields(f: FilterExpr): set<string> {
    match f
    case And(l, r) => FilterFields(l) + FilterFields(r)
    case Or(l, r) => FilterFields(l) + FilterFields(r)
    case Not(e) => FilterFields(e)
    case Comparison(field, _, _) => {field}
    case In(field, _) => {field}
    case IsNull(field) => {field}
    case IsNotNull(field) => {field}
  }

  lemma {:induction false} EvalAgrees(f: FilterExpr, c: string -> ScalarValue, d: string -> ScalarValue)
    requires forall n :: n in FilterFields(f) ==> c(n) == d(n)
    ensures Eval(f, c) == Eval(f, d)
  {
    match f {
      case And(l, r) => EvalAgrees(l, c, d); EvalAgrees(r, c, d);
      case Or(l, r) => EvalAgrees(l, c, d); EvalAgrees(r, c, d);
      case Not(e) => EvalAgrees(e, c, d);
      case _ =>
    }
  }

  lemma ConjoinPasses(a: Option<FilterExpr>, b: Option<FilterExpr>, cols: string -> ScalarValue)
    ensures Passes(Conjoin(a, b), cols) <==> Passes(a, cols) && Passes(b, cols)
  {}
}
