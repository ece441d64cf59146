/** Field-level security: which policies apply to a field, and what is left of a result. */
module Security {
  import opened Base

  datatype PolicyConfig = PolicyConfig(
    datasource: string,
    index: Option<string>,
    denyFields: seq<string>,
    maskFields: seq<string>,
    allowedRoles: seq<string>)

  datatype FieldPolicy = Allow | Deny | Mask

  /** Who asks, and for what. */
  datatype Request = Request(datasource: string, index: string, roles: seq<string>)

  // ---- Which policy a field gets --------------------------------------------

  predicate MatchesTarget(p: PolicyConfig, req: Request) {
    p.datasource == req.datasource && (p.index.None? || p.index.value == req.index)
  }

  predicate Exempt(p: PolicyConfig, req: Request) {
    p.allowedRoles != [] && exists i :: 0 <= i < |req.roles| && req.roles[i] in p.allowedRoles
  }

  predicate Applies(p: PolicyConfig, req: Request) { MatchesTarget(p, req) && !Exempt(p, req) }

  ghost predicate Denied(policies: seq<PolicyConfig>, req: Request, field: string) {
    exists p :: p in policies && Applies(p, req) && field in p.denyFields
  }

  ghost predicate Masked(policies: seq<PolicyConfig>, req: Request, field: string) {
    exists p :: p in policies && Applies(p, req) && field in p.maskFields
  }

  /** The strictest word of any applicable policy. */
  ghost function Verdict(policies: seq<PolicyConfig>, req: Request, field: string): FieldPolicy {
    if Denied(policies, req, field) then Deny
    else if Masked(policies, req, field) then Mask
    else Allow
  }

  /** Walks the policies in order, overwriting the entries of the result map. */
  method Evaluate(policies: seq<PolicyConfig>, req: Request, fields: seq<string>)
    returns (result: map<string, FieldPolicy>)
    ensures result.Keys == Elements(fields)
    ensures forall f :: f in result ==> result[f] == Verdict(policies, req, f)
  {
    result := map f | f in fields :: Allow;
    for i := 0 to |policies|
      invariant result.Keys == Elements(fields)
      invariant forall f :: f in result ==> result[f] == Verdict(policies[..i], req, f)
    {
      var policy := policies[i];
      forall f ensures Verdict(policies[..i + 1], req, f) == Stricter(Verdict(policies[..i], req, f), policy, req, f) {
        assert policies[..i + 1] == policies[..i] + [policy];
        VerdictSnoc(policies[..i], policy, req, f);
      }
      if !MatchesTarget(policy, req) || Exempt(policy, req) {
        continue;
      }
      result := DenyAll(result, policy.denyFields);
      result := MaskAll(result, policy.maskFields);
    }
    assert policies[..|policies|] == policies;
  }

  method DenyAll(before: map<string, FieldPolicy>, fields: seq<string>) returns (after: map<string, FieldPolicy>)
    ensures after.Keys == before.Keys
    ensures forall f :: f in before ==> after[f] == if f in fields then Deny else before[f]
  {
    after := before;
    for i := 0 to |fields|
      invariant after.Keys == before.Keys
      invariant forall f :: f in before ==> after[f] == if f in fields[..i] then Deny else before[f]
    {
      if fields[i] in after {
        after := after[fields[i] := Deny];
      }
      assert fields[..i + 1] == fields[..i] + [fields[i]];
    }
    assert fields[..|fields|] == fields;
  }

  method MaskAll(before: map<string, FieldPolicy>, fields: seq<string>) returns (after: map<string, FieldPolicy>)
    ensures after.Keys == before.Keys
    ensures forall f :: f in before ==> after[f] == if f in fields && !before[f].Deny? then Mask else before[f]
  {
    after := before;
    for i := 0 to |fields|
      invariant after.Keys == before.Keys
      invariant forall f :: f in before ==> after[f] == if f in fields[..i] && !before[f].Deny? then Mask else before[f]
    {
      if fields[i] in after && !after[fields[i]].Deny? {
        after := after[fields[i] := Mask];
      }
      assert fields[..i + 1] == fields[..i] + [fields[i]];
    }
    assert fields[..|fields|] == fields;
  }

  /** One more policy can only tighten the verdict. */
  function Stricter(v: FieldPolicy, p: PolicyConfig, req: Request, field: string): FieldPolicy {
    if !Applies(p, req) then v
    else if field in p.denyFields then Deny
    else if field in p.maskFields && !v.Deny? then Mask
    else v
  }

  lemma VerdictSnoc(policies: seq<PolicyConfig>, p: PolicyConfig, req: Request, field: string)
    ensures Verdict(policies + [p], req, field) == Stricter(Verdict(policies, req, field), p, req, field)
  {
    var more := policies + [p];
    assert p in more;
    assert forall q :: q in policies ==> q in more;
    assert forall q :: q in more ==> q in policies || q == p;
  }

  /** The order of the policies does not matter, nor how often one is listed. */
  lemma VerdictUnordered(policies: seq<PolicyConfig>, shuffled: seq<PolicyConfig>, req: Request, field: string)
    requires multiset(policies) == multiset(shuffled)
    ensures Verdict(policies, req, field) == Verdict(shuffled, req, field)
  {
    assert forall p :: p in policies <==> p in multiset(policies);
    assert forall p :: p in shuffled <==> p in multiset(shuffled);
  }

  // ---- What is left of a result ---------------------------------------------

  datatype DataType = Utf8 | OtherType(name: string)

  datatype Field = Field(name: string, dataType: DataType, nullable: bool)

  /** A column and its values as text, with nulls. */
  datatype Column = Column(dataType: DataType, values: seq<Option<string>>)

  datatype Batch = Batch(schema: seq<Field>, columns: seq<Column>)

  function Rows(b: Batch): nat { if b.columns == [] then 0 else |b.columns[0].values| }

  predicate FieldHolds(f: Field, c: Column, rows: nat) {
    && c.dataType == f.dataType && |c.values| == rows
    && (f.nullable || forall i :: 0 <= i < rows ==> c.values[i].Some?)
  }

  predicate WellFormed(b: Batch) {
    |b.columns| == |b.schema| && forall i :: 0 <= i < |b.schema| ==> FieldHolds(b.schema[i], b.columns[i], Rows(b))
  }

  /** `RecordBatch::try_new` */
  function TryNew(schema: seq<Field>, columns: seq<Column>): Outcome<Batch> {
    var b := Batch(schema, columns);
    if columns == [] || !WellFormed(b) then Err("invalid batch") else Ok(b)
  }

  function MaskColumn(c: Column): Column {
    Column(Utf8, Map((v: Option<string>) => if v.None? then None else Some("****"), c.values))
  }

  /** The positions of the fields that are not denied. */
  function Kept(schema: seq<Field>, verdict: string -> FieldPolicy): (kept: seq<nat>)
    ensures forall i :: 0 <= i < |kept| ==> kept[i] < |schema| && !verdict(schema[kept[i]].name).Deny?
  {
    if schema == [] then []
    else
      var n := |schema| - 1;
      var rest := Kept(schema[..n], verdict);
      if verdict(schema[n].name).Deny? then rest else rest + [n]
  }

  function Shown(f: Field, c: Column, verdict: string -> FieldPolicy): Column {
    if verdict(f.name).Mask? then MaskColumn(c) else c
  }

  function KeptFields(schema: seq<Field>, verdict: string -> FieldPolicy): seq<Field> {
    var kept := Kept(schema, verdict);
    seq(|kept|, i requires 0 <= i < |kept| => schema[kept[i]])
  }

  /** The batch has a column at every kept position. */
  predicate Reaches(schema: seq<Field>, verdict: string -> FieldPolicy, width: nat) {
    forall i :: 0 <= i < |Kept(schema, verdict)| ==> Kept(schema, verdict)[i] < width
  }

  function KeptColumns(schema: seq<Field>, verdict: string -> FieldPolicy, b: Batch): seq<Column>
    requires Reaches(schema, verdict, |b.columns|)
  {
    var kept := Kept(schema, verdict);
    seq(|kept|, i requires 0 <= i < |kept| => Shown(schema[kept[i]], b.columns[kept[i]], verdict))
  }

  /** One batch, read at the positions the first batch's schema gave. */
  function FilterBatch(schema: seq<Field>, verdict: string -> FieldPolicy, b: Batch): Outcome<Batch> {
    if !Reaches(schema, verdict, |b.columns|) then Err("column index out of range")
    else TryNew(KeptFields(schema, verdict), KeptColumns(schema, verdict, b))
  }

  /** `collect` stops at the first error. */
  function Collect(rs: seq<Outcome<Batch>>): Outcome<seq<Batch>> {
    if rs == [] then Ok([])
    else
      match Collect(rs[..|rs| - 1])
      case Err(e) => Err(e)
      case Ok(front) =>
        match rs[|rs| - 1]
        case Err(e) => Err(e)
        case Ok(b) => Ok(front + [b])
  }

  function FilterBatches(verdict: string -> FieldPolicy, batches: seq<Batch>): Outcome<seq<Batch>> {
    if batches == [] then Ok([])
    else Collect(Map(b => FilterBatch(batches[0].schema, verdict, b), batches))
  }

  // ---- Non-interference -----------------------------------------------------

  /** Two batches that differ at most in denied columns and in what masked columns hold. */
  predicate LooksAlike(verdict: string -> FieldPolicy, a: Batch, b: Batch) {
    && a.schema == b.schema && |a.columns| == |b.columns| == |a.schema|
    && forall i :: 0 <= i < |a.schema| ==> ColumnsAlike(verdict(a.schema[i].name), a.columns[i], b.columns[i])
  }

  predicate ColumnsAlike(policy: FieldPolicy, a: Column, b: Column) {
    match policy
    case Deny => true
    case Allow => a == b
    case Mask =>
      && |a.values| == |b.values|
      && forall i :: 0 <= i < |a.values| ==> (a.values[i].None? <==> b.values[i].None?)
  }

  lemma MaskAlike(a: Column, b: Column)
    requires ColumnsAlike(Mask, a, b)
    ensures MaskColumn(a) == MaskColumn(b)
  {}

  lemma FilterBatchAlike(schema: seq<Field>, verdict: string -> FieldPolicy, a: Batch, b: Batch)
    requires LooksAlike(verdict, a, b) && a.schema == schema
    ensures FilterBatch(schema, verdict, a) == FilterBatch(schema, verdict, b)
  {
    var kept := Kept(schema, verdict);
    forall i | 0 <= i < |kept|
      ensures Shown(schema[kept[i]], a.columns[kept[i]], verdict) == Shown(schema[kept[i]], b.columns[kept[i]], verdict)
    {
      var k := kept[i];
      assert ColumnsAlike(verdict(a.schema[k].name), a.columns[k], b.columns[k]);
      if verdict(schema[k].name).Mask? { MaskAlike(a.columns[k], b.columns[k]); }
    }
    assert KeptColumns(schema, verdict, a) == KeptColumns(schema, verdict, b);
  }

  /** What is returned, or that an error is, does not depend on the values of denied columns or
      on the non-null values of masked ones. */
  lemma NonInterference(verdict: string -> FieldPolicy, as_: seq<Batch>, bs: seq<Batch>)
    requires |as_| == |bs|
    requires forall i :: 0 <= i < |as_| ==> as_[i].schema == as_[0].schema && LooksAlike(verdict, as_[i], bs[i])
    ensures FilterBatches(verdict, as_) == FilterBatches(verdict, bs)
  {
    if as_ != [] {
      var schema := as_[0].schema;
      var f := b => FilterBatch(schema, verdict, b);
      assert bs[0].schema == schema;
      forall i | 0 <= i < |as_| ensures FilterBatch(schema, verdict, as_[i]) == FilterBatch(schema, verdict, bs[i]) {
        FilterBatchAlike(schema, verdict, as_[i], bs[i]);
      }
      assert Map(f, as_) == Map(f, bs);
    }
  }

  // ---- Batches of another schema --------------------------------------------

  /** What a batch with fields `own` may show when it is read at the positions of `schema`:
      every position shown openly holds an allowed field, and a masked one no denied field,
      unless that has no nulls for the mask to show. */
  predicate Discreet(verdict: string -> FieldPolicy, schema: seq<Field>, own: seq<Field>) {
    forall k :: k in Kept(schema, verdict) && k < |own| ==> DiscreetAt(verdict, schema[k], own[k])
  }

  predicate DiscreetAt(verdict: string -> FieldPolicy, shown: Field, own: Field) {
    match verdict(own.name)
    case Allow => true
    case Mask => verdict(shown.name).Mask?
    case Deny => verdict(shown.name).Mask? && !own.nullable
  }

  /** Some batch with fields `own` can be read at the positions of `schema` at all. */
  predicate Readable(verdict: string -> FieldPolicy, schema: seq<Field>, own: seq<Field>) {
    && Kept(schema, verdict) != [] && Reaches(schema, verdict, |own|)
    && forall k :: k in Kept(schema, verdict) ==>
         schema[k].dataType == if verdict(schema[k].name).Mask? then Utf8 else own[k].dataType
  }

  /** Two well-formed batches of as many rows that differ only in what their own fields hide. */
  predicate HiddenDiffer(verdict: string -> FieldPolicy, own: seq<Field>, a: Batch, b: Batch) {
    a.schema == own && WellFormed(a) && WellFormed(b) && Rows(a) == Rows(b) && LooksAlike(verdict, a, b)
  }

  ghost predicate Blind(verdict: string -> FieldPolicy, schema: seq<Field>, own: seq<Field>) {
    forall a, b :: HiddenDiffer(verdict, own, a, b) ==>
      FilterBatch(schema, verdict, a) == FilterBatch(schema, verdict, b)
  }

  lemma ShownAlike(verdict: string -> FieldPolicy, shown: Field, own: Field, a: Column, b: Column, rows: nat)
    requires DiscreetAt(verdict, shown, own) && FieldHolds(own, a, rows) && FieldHolds(own, b, rows)
    requires ColumnsAlike(verdict(own.name), a, b)
    ensures Shown(shown, a, verdict) == Shown(shown, b, verdict)
  {
    if verdict(shown.name).Mask? { MaskAlike(a, b); }
  }

  lemma DiscreetHides(verdict: string -> FieldPolicy, schema: seq<Field>, own: seq<Field>, a: Batch, b: Batch)
    requires Discreet(verdict, schema, own) && HiddenDiffer(verdict, own, a, b)
    ensures FilterBatch(schema, verdict, a) == FilterBatch(schema, verdict, b)
  {
    if Reaches(schema, verdict, |own|) {
      var kept := Kept(schema, verdict);
      forall i | 0 <= i < |kept|
        ensures Shown(schema[kept[i]], a.columns[kept[i]], verdict) ==
          Shown(schema[kept[i]], b.columns[kept[i]], verdict)
      {
        var k := kept[i];
        assert k in kept && DiscreetAt(verdict, schema[k], own[k]);
        assert FieldHolds(own[k], a.columns[k], Rows(a)) && FieldHolds(own[k], b.columns[k], Rows(a));
        assert ColumnsAlike(verdict(own[k].name), a.columns[k], b.columns[k]);
        ShownAlike(verdict, schema[k], own[k], a.columns[k], b.columns[k], Rows(a));
      }
      assert KeptColumns(schema, verdict, a) == KeptColumns(schema, verdict, b);
    }
  }

  /** A batch of one row. */
  function OneRow(own: seq<Field>, value: nat -> Option<string>): Batch {
    Batch(own, seq(|own|, i requires 0 <= i < |own| => Column(own[i].dataType, [value(i)])))
  }

  function Plain(): nat -> Option<string> { i => Some("a") }

  function Except(k: nat, v: Option<string>): nat -> Option<string> { i => if i == k then v else Some("a") }

  /** The columns a readable row is shown by fit the schema they are shown under. */
  lemma ReadableRow(verdict: string -> FieldPolicy, schema: seq<Field>, own: seq<Field>)
    requires Readable(verdict, schema, own)
    ensures FilterBatch(schema, verdict, OneRow(own, Plain())).Ok?
  {
    var b, kept := OneRow(own, Plain()), Kept(schema, verdict);
    var fields, columns := KeptFields(schema, verdict), KeptColumns(schema, verdict, b);
    forall i | 0 <= i < |kept| ensures FieldHolds(fields[i], columns[i], 1) {
      assert kept[i] in kept;
    }
    assert Rows(Batch(fields, columns)) == 1;
  }

  /** Two rows that differ at a kept position in a way the schema shows. */
  lemma IndiscreetShows(verdict: string -> FieldPolicy, schema: seq<Field>, own: seq<Field>, k: nat, v: Option<string>)
    requires Readable(verdict, schema, own) && k in Kept(schema, verdict)
    requires if verdict(schema[k].name).Mask? then v == None else v == Some("b")
    ensures FilterBatch(schema, verdict, OneRow(own, Plain())) !=
      FilterBatch(schema, verdict, OneRow(own, Except(k, v)))
  {
    var a, b, kept := OneRow(own, Plain()), OneRow(own, Except(k, v)), Kept(schema, verdict);
    ReadableRow(verdict, schema, own);
    var i :| 0 <= i < |kept| && kept[i] == k;
    assert KeptColumns(schema, verdict, a)[i].values[0] != KeptColumns(schema, verdict, b)[i].values[0];
  }

  lemma IndiscreetLeaks(verdict: string -> FieldPolicy, schema: seq<Field>, own: seq<Field>)
    requires Readable(verdict, schema, own) && !Discreet(verdict, schema, own)
    ensures !Blind(verdict, schema, own)
  {
    var k: nat :| k in Kept(schema, verdict) && k < |own| && !DiscreetAt(verdict, schema[k], own[k]);
    var v := if verdict(schema[k].name).Mask? then None else Some("b");
    IndiscreetShows(verdict, schema, own, k, v);
    RowsAlike(verdict, own, k, v);
  }

  lemma RowsAlike(verdict: string -> FieldPolicy, own: seq<Field>, k: nat, v: Option<string>)
    requires k < |own| && !verdict(own[k].name).Allow?
    requires v.None? ==> verdict(own[k].name).Deny? && own[k].nullable
    ensures HiddenDiffer(verdict, own, OneRow(own, Plain()), OneRow(own, Except(k, v)))
  {
    var a, b := OneRow(own, Plain()), OneRow(own, Except(k, v));
    forall i | 0 <= i < |own|
      ensures FieldHolds(own[i], a.columns[i], 1) && FieldHolds(own[i], b.columns[i], 1)
      ensures ColumnsAlike(verdict(own[i].name), a.columns[i], b.columns[i])
    {
      assert a.columns[i].values == [Some("a")] && b.columns[i].values == [Except(k, v)(i)];
    }
    assert Rows(a) == 1 && Rows(b) == 1;
  }

  /** A batch whose schema is not the first one's shows nothing its own fields hide exactly when
      it is discreet, or can never be read at all. */
  lemma OtherSchemaIff(verdict: string -> FieldPolicy, schema: seq<Field>, own: seq<Field>)
    ensures Blind(verdict, schema, own) <==> !Readable(verdict, schema, own) || Discreet(verdict, schema, own)
  {
    if Discreet(verdict, schema, own) {
      forall a, b | HiddenDiffer(verdict, own, a, b)
        ensures FilterBatch(schema, verdict, a) == FilterBatch(schema, verdict, b)
      {
        DiscreetHides(verdict, schema, own, a, b);
      }
    } else if Readable(verdict, schema, own) {
      IndiscreetLeaks(verdict, schema, own);
    } else {
      forall a, b | HiddenDiffer(verdict, own, a, b)
        ensures FilterBatch(schema, verdict, a) == FilterBatch(schema, verdict, b)
      {
        UnreadableFails(verdict, schema, own, a);
        UnreadableFails(verdict, schema, own, b);
      }
    }
  }

  lemma UnreadableFails(verdict: string -> FieldPolicy, schema: seq<Field>, own: seq<Field>, b: Batch)
    requires !Readable(verdict, schema, own) && WellFormed(b) && b.schema == own
    ensures FilterBatch(schema, verdict, b) ==
      Err(if Reaches(schema, verdict, |own|) then "invalid batch" else "column index out of range")
  {
    var kept := Kept(schema, verdict);
    if kept != [] && Reaches(schema, verdict, |own|) {
      var k :| k in kept && schema[k].dataType != if verdict(schema[k].name).Mask? then Utf8 else own[k].dataType;
      var i :| 0 <= i < |kept| && kept[i] == k;
      assert FieldHolds(own[k], b.columns[k], Rows(b));
      assert KeptFields(schema, verdict)[i].dataType != KeptColumns(schema, verdict, b)[i].dataType;
    }
  }

  /** A whole result of batches that are discreet by their own schemas gives nothing away. */
  lemma MixedNonInterference(verdict: string -> FieldPolicy, as_: seq<Batch>, bs: seq<Batch>)
    requires |as_| == |bs|
    requires forall i :: 0 <= i < |as_| ==>
      && HiddenDiffer(verdict, as_[i].schema, as_[i], bs[i])
      && Discreet(verdict, as_[0].schema, as_[i].schema)
    ensures FilterBatches(verdict, as_) == FilterBatches(verdict, bs)
  {
    if as_ != [] {
      var schema := as_[0].schema;
      assert bs[0].schema == schema;
      forall i | 0 <= i < |as_| ensures FilterBatch(schema, verdict, as_[i]) == FilterBatch(schema, verdict, bs[i]) {
        DiscreetHides(verdict, schema, as_[i].schema, as_[i], bs[i]);
      }
      var f := b => FilterBatch(schema, verdict, b);
      assert Map(f, as_) == Map(f, bs);
    }
  }

  // ---- What is returned -----------------------------------------------------

  /** Something is left to show, and every masked column can hold the mask text. */
  predicate Showable(verdict: string -> FieldPolicy, schema: seq<Field>) {
    && (exists i :: 0 <= i < |schema| && !verdict(schema[i].name).Deny?)
    && forall i :: 0 <= i < |schema| && verdict(schema[i].name).Mask? ==> schema[i].dataType.Utf8?
  }

  lemma {:induction false} KeptMeaning(schema: seq<Field>, verdict: string -> FieldPolicy)
    ensures forall k :: k in Kept(schema, verdict) <==> 0 <= k < |schema| && !verdict(schema[k].name).Deny?
    ensures forall i, j :: 0 <= i < j < |Kept(schema, verdict)| ==> Kept(schema, verdict)[i] < Kept(schema, verdict)[j]
  {
    if schema != [] {
      var rest := Kept(schema[..|schema| - 1], verdict);
      KeptMeaning(schema[..|schema| - 1], verdict);
      assert forall i :: 0 <= i < |rest| ==> rest[i] in rest;
    }
  }

  /** A well-formed batch is filtered successfully exactly when its schema is showable. */
  lemma FilterBatchOkIff(verdict: string -> FieldPolicy, b: Batch)
    requires WellFormed(b)
    ensures FilterBatch(b.schema, verdict, b).Ok? <==> Showable(verdict, b.schema)
  {
    var kept := Kept(b.schema, verdict);
    KeptMeaning(b.schema, verdict);
    assert forall i :: 0 <= i < |kept| ==> kept[i] in kept;
    var fields, columns := KeptFields(b.schema, verdict), KeptColumns(b.schema, verdict, b);
    forall i | 0 <= i < |kept|
      ensures |columns[i].values| == Rows(b)
      ensures FieldHolds(fields[i], columns[i], Rows(b)) <==>
        (verdict(fields[i].name).Mask? ==> fields[i].dataType.Utf8?)
    {
      assert FieldHolds(b.schema[kept[i]], b.columns[kept[i]], Rows(b));
    }
    if kept != [] {
      assert |columns[0].values| == Rows(b) == Rows(Batch(fields, columns));
      if !Showable(verdict, b.schema) {
        var k :| 0 <= k < |b.schema| && verdict(b.schema[k].name).Mask? && !b.schema[k].dataType.Utf8?;
        assert k in kept;
        var i :| 0 <= i < |kept| && kept[i] == k;
        assert !FieldHolds(fields[i], columns[i], Rows(b));
      }
    }
  }

  lemma {:induction false} CollectOkIff(rs: seq<Outcome<Batch>>)
    ensures Collect(rs).Ok? <==> forall i :: 0 <= i < |rs| ==> rs[i].Ok?
    ensures Collect(rs).Ok? ==>
      |Collect(rs).value| == |rs| && forall i :: 0 <= i < |rs| ==> rs[i].Ok? && Collect(rs).value[i] == rs[i].value
  {
    if rs != [] { CollectOkIff(rs[..|rs| - 1]); }
  }

  /** Batches of one schema come back, all of them, exactly when something is left to show and
      every masked column is text: masking any other column is an error. */
  lemma FilterBatchesOkIff(verdict: string -> FieldPolicy, batches: seq<Batch>)
    requires batches != []
    requires forall i :: 0 <= i < |batches| ==> WellFormed(batches[i]) && batches[i].schema == batches[0].schema
    ensures FilterBatches(verdict, batches).Ok? <==> Showable(verdict, batches[0].schema)
    ensures FilterBatches(verdict, batches).Ok? ==>
      && |FilterBatches(verdict, batches).value| == |batches|
      && forall i :: 0 <= i < |batches| ==>
           Ok(FilterBatches(verdict, batches).value[i]) == FilterBatch(batches[0].schema, verdict, batches[i])
  {
    var schema := batches[0].schema;
    var rs := Map(b => FilterBatch(schema, verdict, b), batches);
    CollectOkIff(rs);
    forall i | 0 <= i < |batches| ensures rs[i].Ok? <==> Showable(verdict, schema) {
      FilterBatchOkIff(verdict, batches[i]);
    }
    assert rs[0].Ok? <==> Showable(verdict, schema);
  }

  /** A returned batch has the kept fields in order; an allowed column is as it was, a masked
      one shows the mask exactly where there was a value, and no denied column is there. */
  lemma FilteredContents(verdict: string -> FieldPolicy, b: Batch, out: Batch)
    requires WellFormed(b) && FilterBatch(b.schema, verdict, b) == Ok(out)
    ensures
      var kept := Kept(b.schema, verdict);
      && |out.columns| == |kept|
      && forall i :: 0 <= i < |kept| ==>
           && out.schema[i] == b.schema[kept[i]]
           && (verdict(out.schema[i].name).Allow? ==> out.columns[i] == b.columns[kept[i]])
           && (verdict(out.schema[i].name).Mask? ==>
                forall r :: 0 <= r < Rows(b) ==>
                  out.columns[i].values[r] == if b.columns[kept[i]].values[r].None? then None else Some("****"))
  {
    assert forall k :: 0 <= k < |b.schema| ==> FieldHolds(b.schema[k], b.columns[k], Rows(b));
  }

  // ---- The whole filter -----------------------------------------------------

  ghost function VerdictOf(policies: seq<PolicyConfig>, req: Request): string -> FieldPolicy {
    field => Verdict(policies, req, field)
  }

  function Names(schema: seq<Field>): seq<string> { Map((f: Field) => f.name, schema) }

  function Lookup(m: map<string, FieldPolicy>): string -> FieldPolicy {
    field => if field in m then m[field] else Allow
  }

  /** Evaluates the policies for the first batch's fields, then filters every batch. */
  method FilterResults(policies: seq<PolicyConfig>, req: Request, batches: seq<Batch>) returns (r: Outcome<seq<Batch>>)
    ensures r == FilterBatches(VerdictOf(policies, req), batches)
  {
    if batches == [] {
      return Ok(batches);
    }
    var schema := batches[0].schema;
    var verdicts := Evaluate(policies, req, Names(schema));
    forall i | 0 <= i < |schema| ensures Lookup(verdicts)(schema[i].name) == VerdictOf(policies, req)(schema[i].name) {
      assert Names(schema)[i] in Elements(Names(schema));
    }
    SameVerdicts(Lookup(verdicts), VerdictOf(policies, req), batches);
    return FilterBatches(Lookup(verdicts), batches);
  }

  lemma {:induction false} KeptSame(v: string -> FieldPolicy, w: string -> FieldPolicy, schema: seq<Field>)
    requires forall i :: 0 <= i < |schema| ==> v(schema[i].name) == w(schema[i].name)
    ensures Kept(schema, v) == Kept(schema, w)
  {
    if schema != [] { KeptSame(v, w, schema[..|schema| - 1]); }
  }

  /** Only the verdicts on the schema's own fields matter. */
  lemma SameVerdicts(v: string -> FieldPolicy, w: string -> FieldPolicy, batches: seq<Batch>)
    requires batches != []
    requires var schema := batches[0].schema;
      forall i :: 0 <= i < |schema| ==> v(schema[i].name) == w(schema[i].name)
    ensures FilterBatches(v, batches) == FilterBatches(w, batches)
  {
    var schema := batches[0].schema;
    KeptSame(v, w, schema);
    forall i | 0 <= i < |batches| ensures FilterBatch(schema, v, batches[i]) == FilterBatch(schema, w, batches[i]) {
      if Reaches(schema, v, |batches[i].columns|) {
        assert KeptFields(schema, v) == KeptFields(schema, w);
        assert KeptColumns(schema, v, batches[i]) == KeptColumns(schema, w, batches[i]);
      }
    }
    assert Map(b => FilterBatch(schema, v, b), batches) == Map(b => FilterBatch(schema, w, b), batches);
  }

  /** Reordering the policies changes no result. */
  lemma ResultsUnordered(policies: seq<PolicyConfig>, shuffled: seq<PolicyConfig>, req: Request, batches: seq<Batch>)
    requires multiset(policies) == multiset(shuffled)
    ensures FilterBatches(VerdictOf(policies, req), batches) == FilterBatches(VerdictOf(shuffled, req), batches)
  {
    if batches != [] {
      var schema := batches[0].schema;
      forall i | 0 <= i < |schema|
        ensures VerdictOf(policies, req)(schema[i].name) == VerdictOf(shuffled, req)(schema[i].name)
      {
        VerdictUnordered(policies, shuffled, req, schema[i].name);
      }
      SameVerdicts(VerdictOf(policies, req), VerdictOf(shuffled, req), batches);
    }
  }
}
