/** When exactly a part that the filter translation drops costs rows. */
module SqlSoundness {
  import opened Base
  import opened Values
  import opened LikeEscape
  import opened SqlTranslate

  /** No row of any table, whatever the uninterpreted parts mean, is lost. */
  ghost predicate LosesNothing(e: SqlExpr)
    requires Translate(e).Some?
  {
    forall cols: Columns, other: Uninterpreted ::
      TruthOf(e, cols, other).True? ==> Eval(Translate(e).value, cols).True?
  }

  // ---- IN lists -------------------------------------------------------------

  lemma {:induction false} ValuesOfAt(list: seq<SqlExpr>, i: nat, cols: Columns, other: Uninterpreted)
    requires i < |list|
    ensures ValuesOf(list, cols, other)[i] == ValueOf(list[i], cols, other)
  {
    if i < |list| - 1 {
      ValuesOfAt(list[..|list| - 1], i, cols, other);
    }
  }

  lemma {:induction false} ScalarsHold(list: seq<SqlExpr>, i: nat)
    requires i < |list| && ToScalar(list[i]).Some?
    ensures ToScalar(list[i]).value in Scalars(list)
  {
    if i < |list| - 1 {
      ScalarsHold(list[..|list| - 1], i);
    }
  }

  /** The subject equals this element of the list. */
  predicate Equals(x: SqlExpr, element: SqlExpr, cols: Columns, other: Uninterpreted) {
    Holds(Eq, ValueOf(x, cols, other), ValueOf(element, cols, other), None).True?
  }

  /** Whenever the subject equals the dropped element it also equals a literal of the list. */
  ghost predicate Covered(x: SqlExpr, element: SqlExpr, list: seq<SqlExpr>) {
    forall cols: Columns, other: Uninterpreted :: Equals(x, element, cols, other) ==>
      In3(ValueOf(x, cols, other), Scalars(list)).True?
  }

  lemma ListTruth(x: SqlExpr, list: seq<SqlExpr>, cols: Columns, other: Uninterpreted)
    ensures TruthOf(InList(x, list, false), cols, other) == In3(ValueOf(x, cols, other), ValuesOf(list, cols, other))
  {}

  lemma ListMember(x: SqlExpr, list: seq<SqlExpr>, cols: Columns, other: Uninterpreted)
    ensures In3(ValueOf(x, cols, other), ValuesOf(list, cols, other)).True? <==>
      exists i :: 0 <= i < |list| && Equals(x, list[i], cols, other)
  {
    var v, vs := ValueOf(x, cols, other), ValuesOf(list, cols, other);
    In3Member(v, vs);
    if i :| 0 <= i < |list| && Equals(x, list[i], cols, other) {
      ValuesOfAt(list, i, cols, other);
      assert Holds(Eq, v, vs[i], None).True?;
    }
    if i :| 0 <= i < |vs| && Holds(Eq, v, vs[i], None).True? {
      ValuesOfAt(list, i, cols, other);
      assert Equals(x, list[i], cols, other);
    }
  }

  lemma InListTrue(x: SqlExpr, list: seq<SqlExpr>, cols: Columns, other: Uninterpreted)
    ensures TruthOf(InList(x, list, false), cols, other).True? <==>
      exists i :: 0 <= i < |list| && Equals(x, list[i], cols, other)
  {
    ListTruth(x, list, cols, other);
    ListMember(x, list, cols, other);
  }

  lemma LiteralCovered(x: SqlExpr, list: seq<SqlExpr>, i: nat, cols: Columns, other: Uninterpreted)
    requires i < |list| && ToScalar(list[i]).Some? && Equals(x, list[i], cols, other)
    ensures In3(ValueOf(x, cols, other), Scalars(list)).True?
  {
    ScalarValueOf(list[i], cols, other);
    ScalarsHold(list, i);
    var k :| 0 <= k < |Scalars(list)| && Scalars(list)[k] == ToScalar(list[i]).value;
    In3Member(ValueOf(x, cols, other), Scalars(list));
  }

  /** Any IN list is pushed soundly exactly when every element that is dropped is covered by
      the literals that stay. */
  lemma InListSoundIff(x: SqlExpr, list: seq<SqlExpr>)
    requires ColumnName(x).Some?
    ensures LosesNothing(InList(x, list, false)) <==>
      forall i :: 0 <= i < |list| && ToScalar(list[i]).None? ==> Covered(x, list[i], list)
  {
    var e := InList(x, list, false);
    forall cols: Columns, other: Uninterpreted
      ensures Eval(Translate(e).value, cols) == In3(ValueOf(x, cols, other), Scalars(list))
      ensures TruthOf(e, cols, other).True? <==> exists i :: 0 <= i < |list| && Equals(x, list[i], cols, other)
    {
      ColumnValue(x, cols, other);
      InListTrue(x, list, cols, other);
    }
    if forall i :: 0 <= i < |list| && ToScalar(list[i]).None? ==> Covered(x, list[i], list) {
      forall cols: Columns, other: Uninterpreted | TruthOf(e, cols, other).True?
        ensures Eval(Translate(e).value, cols).True?
      {
        var i :| 0 <= i < |list| && Equals(x, list[i], cols, other);
        if ToScalar(list[i]).Some? { LiteralCovered(x, list, i, cols, other); }
      }
    }
    if LosesNothing(e) {
      forall i | 0 <= i < |list| && ToScalar(list[i]).None? ensures Covered(x, list[i], list) {
        forall cols: Columns, other: Uninterpreted | Equals(x, list[i], cols, other)
          ensures In3(ValueOf(x, cols, other), Scalars(list)).True?
        {
          assert TruthOf(e, cols, other).True?;
        }
      }
    }
  }

  /** A text longer than every text in the list equals none of its values. */
  function FreshText(vs: seq<ScalarValue>): (s: string)
    ensures s != []
    ensures forall i :: 0 <= i < |vs| && vs[i].Utf8? ==> |vs[i].s| < |s|
  {
    if vs == [] then "x"
    else
      var rest, last := FreshText(vs[..|vs| - 1]), vs[|vs| - 1];
      if last.Utf8? then rest + last.s else rest
  }

  lemma FreshTextOutside(vs: seq<ScalarValue>)
    ensures !In3(Utf8(FreshText(vs)), vs).True?
  {
    var v := Utf8(FreshText(vs));
    In3Member(v, vs);
    forall k | 0 <= k < |vs| ensures !Holds(Eq, v, vs[k], None).True? {
      if vs[k].Utf8? { CompareStringsReverse(v.s, vs[k].s); }
    }
  }

  /** The value can be any text: a column, a function, or what this model does not interpret. */
  predicate Unbound(e: SqlExpr) {
    match e
    case Identifier(_) => true
    case CompoundIdentifier(_) => true
    case Function(_) => true
    case Other(_) => true
    case Value(lit) => LiteralValue(lit).None?
    case Binary(_, op, _) => !op.AndOp? && !op.OrOp? && OrderOp(op).None?
    case Minus(x) => Unbound(x)
    case Nested(x) => Unbound(x)
    case _ => false
  }

  function SameColumn(v: ScalarValue): Columns { (_: string) => v }

  function SameOther(v: ScalarValue): Uninterpreted { (_: SqlExpr) => v }

  lemma {:induction false} UnboundValue(e: SqlExpr, s: string)
    requires Unbound(e)
    ensures ValueOf(e, SameColumn(Utf8(s)), SameOther(Utf8(s))) == Utf8(s)
  {
    if e.Minus? || e.Nested? { UnboundValue(e.e, s); }
  }

  lemma UnboundUncovered(x: SqlExpr, element: SqlExpr, list: seq<SqlExpr>)
    requires ColumnName(x).Some? && Unbound(element)
    ensures !Covered(x, element, list)
  {
    var s := FreshText(Scalars(list));
    var cols, other := SameColumn(Utf8(s)), SameOther(Utf8(s));
    ColumnValue(x, cols, other);
    UnboundValue(element, s);
    CompareStringsReverse(s, s);
    assert Equals(x, element, cols, other);
    FreshTextOutside(Scalars(list));
  }

  /** Over literals, columns, functions and uninterpreted elements: exactly when every element
      is a literal. */
  lemma LiteralListIff(x: SqlExpr, list: seq<SqlExpr>)
    requires ColumnName(x).Some?
    requires forall i :: 0 <= i < |list| ==> ToScalar(list[i]).Some? || Unbound(list[i])
    ensures LosesNothing(InList(x, list, false)) <==> AllLiterals(list)
  {
    InListSoundIff(x, list);
    if i :| 0 <= i < |list| && ToScalar(list[i]).None? { UnboundUncovered(x, list[i], list); }
  }

  // ---- A conjunct dropped under NOT -----------------------------------------

  function Conjunction(first: bool, kept: SqlExpr, dropped: SqlExpr): SqlExpr {
    if first then Binary(kept, AndOp, dropped) else Binary(dropped, AndOp, kept)
  }

  /** A conjunct dropped under NOT is harmless exactly when the one that stays is false
      wherever the dropped one is. */
  lemma NotAndSoundIff(first: bool, kept: SqlExpr, dropped: SqlExpr)
    requires Exact(kept) && Translate(dropped).None?
    ensures Translate(kept).Some? && Translate(Conjunction(first, kept, dropped)) == Translate(kept)
    ensures
      LosesNothing(NotExpr(Conjunction(first, kept, dropped))) <==>
      forall cols: Columns, other: Uninterpreted ::
        TruthOf(dropped, cols, other).False? ==> Eval(Translate(kept).value, cols).False?
  {
    var both := Conjunction(first, kept, dropped);
    var e := NotExpr(both);
    ExactAgrees(kept, SameColumn(Null), SameOther(Null));
    assert Translate(e) == Some(Not(Translate(kept).value));
    forall cols: Columns, other: Uninterpreted
      ensures TruthOf(e, cols, other).True? <==>
        Eval(Translate(kept).value, cols).False? || TruthOf(dropped, cols, other).False?
      ensures Eval(Translate(e).value, cols).True? <==> Eval(Translate(kept).value, cols).False?
    {
      ExactAgrees(kept, cols, other);
      ConnectiveTruth(both, cols, other);
    }
  }

  // ---- A dropped ESCAPE -----------------------------------------------------

  lemma LikeTruth(e: SqlExpr, cols: Columns, other: Uninterpreted, s: string)
    requires e.LikeExpr? && Translate(e).Some? && ToScalar(e.pattern).value.Utf8?
    requires cols(ColumnName(e.e).value) == Utf8(s)
    ensures
      var p := ToScalar(e.pattern).value.s;
      && (TruthOf(e, cols, other).True? <==> LikeMatches(s, p, e.escape, e.caseless) != e.negated)
      && (Eval(Translate(e).value, cols).True? <==> LikeMatches(s, p, None, e.caseless) != e.negated)
  {
    ColumnValue(e.e, cols, other);
    ScalarValueOf(e.pattern, cols, other);
  }

  lemma HarmfulEscapeLoses(e: SqlExpr)
    requires e.LikeExpr? && !e.negated && Translate(e).Some? && !EscapeHarmless(e)
    ensures !LosesNothing(e)
  {
    var p, c := ToScalar(e.pattern).value.s, e.escape.value;
    HarmfulLoses(p, c, e.caseless);
    LikeTruth(e, SameColumn(Utf8(Shortest(p, c))), SameOther(Null), Shortest(p, c));
  }

  /** A LIKE or ILIKE loses no row to its dropped ESCAPE exactly when the escape character is
      `%`, quotes nothing, or is `_` and quotes only `%`. */
  lemma EscapeSoundIff(e: SqlExpr)
    requires e.LikeExpr? && !e.negated && Translate(e).Some?
    ensures LosesNothing(e) <==> EscapeHarmless(e)
  {
    if EscapeHarmless(e) {
      forall cols: Columns, other: Uninterpreted
        ensures TruthOf(e, cols, other).True? ==> Eval(Translate(e).value, cols).True?
      {
        LikeKeeps(e, cols, other);
      }
    } else {
      HarmfulEscapeLoses(e);
    }
  }

  // ---- Rows the filter lets in ----------------------------------------------

  /** The filter is true of no row the predicate is not true of.  Nothing filters again after
      the source, so a row let in here is a row of the answer. */
  ghost predicate GainsNothing(e: SqlExpr)
    requires Translate(e).Some?
  {
    forall cols: Columns, other: Uninterpreted ::
      Eval(Translate(e).value, cols).True? ==> TruthOf(e, cols, other).True?
  }

  /** Tight predicates gain nothing. */
  lemma TightGainsNothing(e: SqlExpr)
    requires Tight(e, true) && Translate(e).Some?
    ensures GainsNothing(e)
  {
    forall cols: Columns, other: Uninterpreted | Eval(Translate(e).value, cols).True?
      ensures TruthOf(e, cols, other).True?
    {
      TightMatches(e, true, cols, other);
    }
  }

  /** Dropping a conjunct gains nothing exactly when the one that stays implies it. */
  lemma ConjunctGainsIff(first: bool, kept: SqlExpr, dropped: SqlExpr)
    requires Exact(kept) && Translate(dropped).None?
    ensures Translate(kept).Some? && Translate(Conjunction(first, kept, dropped)) == Translate(kept)
    ensures
      GainsNothing(Conjunction(first, kept, dropped)) <==>
      forall cols: Columns, other: Uninterpreted ::
        Eval(Translate(kept).value, cols).True? ==> TruthOf(dropped, cols, other).True?
  {
    var both := Conjunction(first, kept, dropped);
    ExactAgrees(kept, SameColumn(Null), SameOther(Null));
    forall cols: Columns, other: Uninterpreted
      ensures TruthOf(both, cols, other).True? <==>
        Eval(Translate(kept).value, cols).True? && TruthOf(dropped, cols, other).True?
    {
      ExactAgrees(kept, cols, other);
      ConnectiveTruth(both, cols, other);
    }
  }

  /** Two columns compared beside a comparison with a literal: the pushed filter admits rows
      on which the columns differ. */
  lemma ColumnsDroppedGain(a: string, b: string, c: string, v: ScalarValue, lit: SqlExpr)
    requires a != b && c != a && c != b && ToScalar(lit) == Some(v) && Compare(v, v) == Some(Equal)
    ensures
      var e := Binary(Binary(Identifier(a), EqOp, Identifier(b)), AndOp, Binary(Identifier(c), EqOp, lit));
      Safe(e, true) && Translate(e) == Some(Comparison(c, Eq, v)) && !GainsNothing(e)
  {
    var same, fixed := Binary(Identifier(a), EqOp, Identifier(b)), Binary(Identifier(c), EqOp, lit);
    var e := Binary(same, AndOp, fixed);
    assert Translate(same).None? && Translate(fixed) == Some(Comparison(c, Eq, v));
    var cols: Columns, other := (name: string) => if name == c then v else Null, SameOther(Null);
    ConnectiveTruth(e, cols, other);
    assert ValueOf(Identifier(a), cols, other) == Null && ValueOf(Identifier(b), cols, other) == Null;
    assert ValueOf(same, cols, other) == FromTruth(Holds(Eq, Null, Null, None));
    assert Eval(Translate(e).value, cols).True? && !TruthOf(same, cols, other).True?;
  }

  // ---- NOT IN ---------------------------------------------------------------

  /** Where no literal of the list can equal the subject, the dropped element cannot either. */
  ghost predicate Refuted(x: SqlExpr, element: SqlExpr, list: seq<SqlExpr>) {
    forall cols: Columns, other: Uninterpreted :: In3(ValueOf(x, cols, other), Scalars(list)).False? ==>
      Holds(Eq, ValueOf(x, cols, other), ValueOf(element, cols, other), None).False?
  }

  predicate Differs(x: SqlExpr, element: SqlExpr, cols: Columns, other: Uninterpreted) {
    Holds(Eq, ValueOf(x, cols, other), ValueOf(element, cols, other), None).False?
  }

  lemma ListRefuted(x: SqlExpr, list: seq<SqlExpr>, cols: Columns, other: Uninterpreted)
    ensures In3(ValueOf(x, cols, other), ValuesOf(list, cols, other)).False? <==>
      forall i :: 0 <= i < |list| ==> Differs(x, list[i], cols, other)
  {
    var v, vs := ValueOf(x, cols, other), ValuesOf(list, cols, other);
    In3Refuted(v, vs);
    forall i | 0 <= i < |list| ensures vs[i] == ValueOf(list[i], cols, other) { ValuesOfAt(list, i, cols, other); }
    if forall i :: 0 <= i < |list| ==> Differs(x, list[i], cols, other) {
      forall i | 0 <= i < |vs| ensures Holds(Eq, v, vs[i], None).False? { assert Differs(x, list[i], cols, other); }
    }
    if i :| 0 <= i < |list| && !Differs(x, list[i], cols, other) { assert !Holds(Eq, v, vs[i], None).False?; }
  }

  lemma NotInTruth(x: SqlExpr, list: seq<SqlExpr>, cols: Columns, other: Uninterpreted)
    requires ColumnName(x).Some?
    ensures
      var e, v := InList(x, list, true), ValueOf(x, cols, other);
      && (TruthOf(e, cols, other).True? <==> In3(v, ValuesOf(list, cols, other)).False?)
      && (Eval(Translate(e).value, cols).True? <==> In3(v, Scalars(list)).False?)
  {
    ColumnValue(x, cols, other);
  }

  lemma LiteralDiffers(x: SqlExpr, list: seq<SqlExpr>, i: nat, cols: Columns, other: Uninterpreted)
    requires i < |list| && ToScalar(list[i]).Some? && In3(ValueOf(x, cols, other), Scalars(list)).False?
    ensures Differs(x, list[i], cols, other)
  {
    ScalarValueOf(list[i], cols, other);
    ScalarsHold(list, i);
    In3Refuted(ValueOf(x, cols, other), Scalars(list));
    var k :| 0 <= k < |Scalars(list)| && Scalars(list)[k] == ToScalar(list[i]).value;
  }

  /** NOT IN gains nothing exactly when every dropped element is refuted by the literals. */
  lemma NotInGainsIff(x: SqlExpr, list: seq<SqlExpr>)
    requires ColumnName(x).Some?
    ensures GainsNothing(InList(x, list, true)) <==>
      forall i :: 0 <= i < |list| && ToScalar(list[i]).None? ==> Refuted(x, list[i], list)
  {
    var e := InList(x, list, true);
    forall cols: Columns, other: Uninterpreted
      ensures Eval(Translate(e).value, cols).True? <==> In3(ValueOf(x, cols, other), Scalars(list)).False?
      ensures TruthOf(e, cols, other).True? <==> forall i :: 0 <= i < |list| ==> Differs(x, list[i], cols, other)
    {
      NotInTruth(x, list, cols, other);
      ListRefuted(x, list, cols, other);
    }
    if forall i :: 0 <= i < |list| && ToScalar(list[i]).None? ==> Refuted(x, list[i], list) {
      forall cols: Columns, other: Uninterpreted | Eval(Translate(e).value, cols).True?
        ensures TruthOf(e, cols, other).True?
      {
        forall i | 0 <= i < |list| ensures Differs(x, list[i], cols, other) {
          if ToScalar(list[i]).Some? { LiteralDiffers(x, list, i, cols, other); }
        }
      }
    }
    if GainsNothing(e) {
      forall i | 0 <= i < |list| && ToScalar(list[i]).None? ensures Refuted(x, list[i], list) {
        forall cols: Columns, other: Uninterpreted | In3(ValueOf(x, cols, other), Scalars(list)).False?
          ensures Holds(Eq, ValueOf(x, cols, other), ValueOf(list[i], cols, other), None).False?
        {
          assert TruthOf(e, cols, other).True?;
          assert Differs(x, list[i], cols, other);
        }
      }
    }
  }

  // ---- NOT LIKE without a run -----------------------------------------------

  /** A NOT LIKE whose pattern has no `%` loses no row to its dropped ESCAPE exactly when the
      clause quotes nothing. */
  lemma NotLikeSoundIff(e: SqlExpr)
    requires e.LikeExpr? && e.negated && Translate(e).Some? && e.escape.Some?
    requires ToScalar(e.pattern).value.Utf8? && '%' !in ToScalar(e.pattern).value.s
    ensures LosesNothing(e) <==> EscapeIdle(e)
  {
    var p, c := ToScalar(e.pattern).value.s, e.escape.value;
    FixedDropIff(p, c, e.caseless);
    if EscapeIdle(e) {
      forall cols: Columns, other: Uninterpreted | TruthOf(e, cols, other).True?
        ensures Eval(Translate(e).value, cols).True?
      {
        LikeAgrees(e, cols, other);
      }
    } else {
      var s: string :| LikeMatches(s, p, None, e.caseless) && !LikeMatches(s, p, Some(c), e.caseless);
      LikeTruth(e, SameColumn(Utf8(s)), SameOther(Null), s);
    }
  }
}
