/** Query rewriting before fan-out: filters, projections, sorts and limits are copied
    to every source, and the page is cut after the merge. */
module Rewrite {
  import opened Base
  import opened Values
  import opened Sorting
  import opened RowOrder

  const U64_MAX: nat := 0xFFFF_FFFF_FFFF_FFFF

  datatype AggregationExpr = AggregationExpr(function_: string, field: Option<string>, alias: string)

  datatype SubQuery = SubQuery(
    table: string,
    projections: seq<string>,
    filter: Option<FilterExpr>,
    aggregations: seq<AggregationExpr>,
    groupBy: seq<string>,
    having: Option<FilterExpr>,
    sort: seq<SortExpr>,
    limit: Option<nat>,
    offset: Option<nat>,
    passthrough: Option<string>)

  // ---- The rewrites ---------------------------------------------------------

  function PushLimit(base: Option<nat>, own: Option<nat>): Option<nat> {
    match (base, own)
    case (None, _) => own
    case (Some(b), None) => base
    case (Some(b), Some(o)) => Some(Min(o, b))
  }

  /** What one source's sub-query becomes. */
  function PushDown(base: SubQuery, sq: SubQuery): SubQuery {
    var pushAggs := sq.aggregations == [] && base.aggregations != [];
    sq.(filter := if sq.filter.None? then base.filter else sq.filter,
        projections := if sq.projections == [] then base.projections else sq.projections,
        sort := if sq.sort == [] then base.sort else sq.sort,
        limit := PushLimit(base.limit, sq.limit),
        aggregations := if pushAggs then base.aggregations else sq.aggregations,
        groupBy := if pushAggs then base.groupBy else sq.groupBy,
        having := if pushAggs && sq.having.None? then base.having else sq.having)
  }

  /** Rewrites every sub-query of the slice in place. */
  method PushDownToSources(base: SubQuery, perSource: array<SubQuery>)
    modifies perSource
    ensures perSource[..] == Map(sq => PushDown(base, sq), old(perSource[..]))
  {
    for i := 0 to perSource.Length
      invariant forall k :: 0 <= k < i ==> perSource[k] == PushDown(base, old(perSource[k]))
      invariant forall k :: i <= k < perSource.Length ==> perSource[k] == old(perSource[k])
    {
      perSource[i] := PushDownToOne(base, perSource[i]);
    }
  }

  /** The body of that loop. */
  method PushDownToOne(base: SubQuery, own: SubQuery) returns (sq: SubQuery)
    ensures sq == PushDown(base, own)
  {
    sq := own;
    if sq.filter.None? {
      sq := sq.(filter := base.filter);
    }
    if sq.projections == [] && base.projections != [] {
      sq := sq.(projections := base.projections);
    }
    if sq.sort == [] && base.sort != [] {
      sq := sq.(sort := base.sort);
    }
    if base.limit.Some? {
      match sq.limit {
        case None => sq := sq.(limit := Some(base.limit.value));
        case Some(existing) => sq := sq.(limit := Some(Min(existing, base.limit.value)));
      }
    }
    if sq.aggregations == [] && base.aggregations != [] {
      sq := sq.(aggregations := base.aggregations, groupBy := base.groupBy);
      if sq.having.None? {
        sq := sq.(having := base.having);
      }
    }
  }

  function SaturatingAdd(a: nat, b: nat): nat { Min(a + b, U64_MAX) }

  function EliminateRedundantSort(sq: SubQuery): SubQuery {
    if sq.sort != [] && sq.limit.None? && sq.groupBy != [] then sq.(sort := []) else sq
  }

  function MergeAdjacentLimits(sq: SubQuery): SubQuery {
    if sq.limit.Some? && sq.offset.Some? then
      sq.(limit := Some(SaturatingAdd(sq.limit.value, sq.offset.value)), offset := None)
    else sq
  }

  function Optimized(sq: SubQuery): SubQuery {
    MergeAdjacentLimits(EliminateRedundantSort(sq))
  }

  /** Applies the optimizer rules to one sub-query, in its place. */
  method Optimize(place: array<SubQuery>, at: nat)
    requires at < place.Length
    modifies place
    ensures place[..] == old(place[..])[at := Optimized(old(place[at]))]
  {
    if place[at].sort != [] && place[at].limit.None? && place[at].groupBy != [] {
      place[at] := place[at].(sort := []);
    }
    if place[at].limit.Some? && place[at].offset.Some? {
      var needed := SaturatingAdd(place[at].limit.value, place[at].offset.value);
      place[at] := place[at].(limit := Some(needed));
      place[at] := place[at].(offset := None);
    }
  }

  // ---- What a query means ---------------------------------------------------

  function OffsetOf(sq: SubQuery): nat { if sq.offset.Some? then sq.offset.value else 0 }

  function Matching(filter: Option<FilterExpr>, table: seq<Row>): seq<Row> {
    Filter((r: Row) => Passes(filter, (name: string) => Column(r, name)), table)
  }

  /** The order an engine may list rows in: any sorted one, or the table's own. */
  ghost predicate Ordered(sort: seq<SortExpr>, rows: seq<Row>, listed: seq<Row>) {
    if sort == [] then listed == rows else SortsTo(RowLeq(sort), rows, listed)
  }

  /** `out` is an answer to the (non-aggregating) query on the table. */
  ghost predicate Answers(sq: SubQuery, table: seq<Row>, out: seq<Row>) {
    exists listed ::
      && Ordered(sq.sort, Matching(sq.filter, table), listed)
      && out == Map(r => Project(sq.projections, r), Window(listed, OffsetOf(sq), sq.limit))
  }

  /** A sub-query as the fan-out creates it: a table and perhaps a limit of its own. */
  predicate Fresh(sq: SubQuery) {
    && sq.projections == [] && sq.filter.None? && sq.aggregations == [] && sq.groupBy == []
    && sq.having.None? && sq.sort == [] && sq.offset.None?
  }

  /** A row-returning query whose sort keys reach the merge. */
  predicate Plain(base: SubQuery) {
    && base.aggregations == [] && base.groupBy == []
    && (base.projections == [] || SortFields(base.sort) <= Elements(base.projections))
  }

  /** A source's own limit does not undercut the page. */
  predicate Roomy(base: SubQuery, own: Option<nat>) {
    own.None? || (base.limit.Some? && OffsetOf(base) + base.limit.value <= own.value)
  }

  /** `limit + offset` fits the machine word the code adds it in. */
  predicate NoSaturation(base: SubQuery) {
    base.limit.Some? ==> OffsetOf(base) + base.limit.value <= U64_MAX
  }

  /** Every source answers its rewritten sub-query. */
  ghost predicate SourcesAnswer(base: SubQuery, sources: seq<SubQuery>, tables: seq<seq<Row>>,
                                answers: seq<seq<Row>>) {
    && |sources| == |tables| == |answers|
    && forall i :: 0 <= i < |sources| ==> Answers(PushDown(Optimized(base), sources[i]), tables[i], answers[i])
  }

  /** What the federation returns: union, global sort, then the page. */
  ghost predicate FederatedResult(base: SubQuery, answers: seq<seq<Row>>, out: seq<Row>) {
    exists merged ::
      && Ordered(base.sort, Flatten(answers), merged)
      && out == Window(merged, OffsetOf(base), base.limit)
  }

  // ---- Maps, filters and unions ---------------------------------------------

  lemma {:induction false} MapPermutation<A, B>(f: A -> B, s: seq<A>, t: seq<A>)
    requires multiset(s) == multiset(t)
    ensures multiset(Map(f, s)) == multiset(Map(f, t))
  {
    PermutationLength(s, t);
    if s != [] {
      var k := Locate(s, t);
      var front, left, last, right := s[..|s| - 1], t[..k], s[|s| - 1], t[k + 1..];
      MapPermutation(f, front, left + right);
      assert s == front + [last];
      MapAppend(f, front, [last]);
      MapAppend(f, left, right);
      MapAppend(f, left, [last]);
      MapAppend(f, left + [last], right);
    }
  }

  /** Projecting a sorted listing sorts the projected rows. */
  lemma ProjectSorts(base: SubQuery, rows: seq<Row>, listed: seq<Row>)
    requires Plain(base) && SortsTo(RowLeq(base.sort), rows, listed)
    ensures
      var project := r => Project(base.projections, r);
      SortsTo(RowLeq(base.sort), Map(project, rows), Map(project, listed))
  {
    var project := r => Project(base.projections, r);
    MapPermutation(project, rows, listed);
    var leq := RowLeq(base.sort);
    forall i, j | 0 <= i < j < |listed| ensures leq(Map(project, listed)[i], Map(project, listed)[j]) {
      ProjectKeepsOrder(base.sort, base.projections, listed[i], listed[j]);
      assert leq(listed[i], listed[j]);
    }
  }

  // ---- One source -----------------------------------------------------------

  function Needed(base: SubQuery): nat
    requires base.limit.Some?
  {
    OffsetOf(base) + base.limit.value
  }

  /** A fresh sub-query is asked for the base query's rows, at least down to the page's end. */
  lemma PushedQuery(base: SubQuery, own: SubQuery)
    requires Plain(base) && Fresh(own) && NoSaturation(base) && Roomy(base, own.limit)
    ensures
      var sq := PushDown(Optimized(base), own);
      && sq.filter == base.filter && sq.projections == base.projections && sq.sort == base.sort
      && sq.offset.None?
      && (base.limit.None? ==> sq.limit.None?)
      && (base.limit.Some? ==> sq.limit.Some? && Needed(base) <= sq.limit.value)
  {}

  /** The rows a source must contribute, as the merge sees them. */
  function Contribution(base: SubQuery, table: seq<Row>): seq<Row> {
    Map(r => Project(base.projections, r), Matching(base.filter, table))
  }

  lemma SourceSorted(base: SubQuery, own: SubQuery, table: seq<Row>, answer: seq<Row>, n: nat)
    requires Plain(base) && Fresh(own) && NoSaturation(base) && Roomy(base, own.limit) && base.sort != []
    requires Answers(PushDown(Optimized(base), own), table, answer)
    requires base.limit.Some? ==> n == Needed(base)
    requires base.limit.None? ==> |table| <= n
    ensures FetchedFrom(RowLeq(base.sort), n, Contribution(base, table), answer)
  {
    PushedQuery(base, own);
    var sq := PushDown(Optimized(base), own);
    var rows := Matching(base.filter, table);
    var listed :|
      && Ordered(sq.sort, rows, listed)
      && answer == Map(r => Project(sq.projections, r), Window(listed, 0, sq.limit));
    var project := r => Project(base.projections, r);
    ProjectSorts(base, rows, listed);
    PermutationLength(rows, listed);
    var m := if sq.limit.Some? then sq.limit.value else n;
    assert Window(listed, 0, sq.limit) == Take(listed, m);
    MapTake(project, listed, m);
  }

  lemma MapWindow<A, B>(f: A -> B, s: seq<A>, offset: nat, limit: Option<nat>)
    ensures Map(f, Window(s, offset, limit)) == Window(Map(f, s), offset, limit)
  {}

  lemma SourceUnsorted(base: SubQuery, own: SubQuery, table: seq<Row>, answer: seq<Row>, n: nat)
    requires Plain(base) && Fresh(own) && NoSaturation(base) && Roomy(base, own.limit) && base.sort == []
    requires Answers(PushDown(Optimized(base), own), table, answer)
    requires base.limit.Some? ==> n == Needed(base)
    ensures FirstRowsOf(n, Contribution(base, table), answer)
  {
    PushedQuery(base, own);
    var sq := PushDown(Optimized(base), own);
    var rows := Matching(base.filter, table);
    assert Window(rows, 0, sq.limit) <= rows;
  }

  // ---- The federation -------------------------------------------------------

  lemma ContributionUnion(base: SubQuery, tables: seq<seq<Row>>)
    ensures Flatten(Map(t => Contribution(base, t), tables)) == Contribution(base, Flatten(tables))
  {
    var p := (r: Row) => Passes(base.filter, (name: string) => Column(r, name));
    var project := r => Project(base.projections, r);
    var matching := Map(t => Filter(p, t), tables);
    FilterFlatten(p, tables);
    MapFlatten(project, matching);
    assert Map(t => Contribution(base, t), tables) == Map(s => Map(project, s), matching);
  }

  /** The setting of both pushdown theorems. */
  ghost predicate Federation(base: SubQuery, sources: seq<SubQuery>, tables: seq<seq<Row>>, answers: seq<seq<Row>>) {
    && Plain(base) && NoSaturation(base)
    && SourcesAnswer(base, sources, tables, answers)
    && forall i :: 0 <= i < |sources| ==> Fresh(sources[i]) && Roomy(base, sources[i].limit)
  }

  /** How many rows the merge can possibly need of any source. */
  function Reach(base: SubQuery, tables: seq<seq<Row>>): nat {
    OffsetOf(base) + PageSize(base, tables)
  }

  function PageSize(base: SubQuery, tables: seq<seq<Row>>): nat {
    if base.limit.Some? then base.limit.value else |Flatten(tables)|
  }

  lemma AllFetched(base: SubQuery, sources: seq<SubQuery>, tables: seq<seq<Row>>, answers: seq<seq<Row>>)
    requires Federation(base, sources, tables, answers) && base.sort != []
    ensures Fetched(RowLeq(base.sort), Reach(base, tables), Map(t => Contribution(base, t), tables), answers)
  {
    var contributions := Map(t => Contribution(base, t), tables);
    forall i | 0 <= i < |tables|
      ensures FetchedFrom(RowLeq(base.sort), Reach(base, tables), contributions[i], answers[i])
    {
      TableInUnion(tables, i);
      SourceSorted(base, sources[i], tables[i], answers[i], Reach(base, tables));
    }
  }

  lemma AllFirstRows(base: SubQuery, sources: seq<SubQuery>, tables: seq<seq<Row>>, answers: seq<seq<Row>>)
    requires Federation(base, sources, tables, answers) && base.sort == []
    ensures FirstRows(Reach(base, tables), Map(t => Contribution(base, t), tables), answers)
  {
    var contributions := Map(t => Contribution(base, t), tables);
    forall i | 0 <= i < |tables| ensures FirstRowsOf(Reach(base, tables), contributions[i], answers[i]) {
      SourceUnsorted(base, sources[i], tables[i], answers[i], Reach(base, tables));
    }
  }

  /** An answer is a window on the projected rows, listed in order. */
  lemma AnswerIsWindow(base: SubQuery, table: seq<Row>, out: seq<Row>) returns (full: seq<Row>)
    requires Plain(base) && Answers(base, table, out)
    ensures Ordered(base.sort, Contribution(base, table), full)
    ensures out == Window(full, OffsetOf(base), base.limit) && |full| <= |table|
  {
    var project := r => Project(base.projections, r);
    var rows := Matching(base.filter, table);
    var listed :|
      && Ordered(base.sort, rows, listed)
      && out == Map(project, Window(listed, OffsetOf(base), base.limit));
    full := Map(project, listed);
    if base.sort != [] {
      ProjectSorts(base, rows, listed);
      PermutationLength(rows, listed);
    }
    MapWindow(project, listed, OffsetOf(base), base.limit);
  }

  lemma {:induction false} TableInUnion<T>(tables: seq<seq<T>>, i: nat)
    requires i < |tables|
    ensures |tables[i]| <= |Flatten(tables)|
  {
    if i < |tables| - 1 { TableInUnion(tables[..|tables| - 1], i); }
  }

  /** Top-N pushdown: the federated page has the sort keys of the page of the whole union. */
  lemma TopNPushdown(base: SubQuery, sources: seq<SubQuery>, tables: seq<seq<Row>>,
                     answers: seq<seq<Row>>, out: seq<Row>, reference: seq<Row>)
    requires Federation(base, sources, tables, answers) && base.sort != []
    requires FederatedResult(base, answers, out) && Answers(base, Flatten(tables), reference)
    ensures SameKeys(RowLeq(base.sort), out, reference)
  {
    var leq, contributions := RowLeq(base.sort), Map(t => Contribution(base, t), tables);
    var merged :| Ordered(base.sort, Flatten(answers), merged) && out == Window(merged, OffsetOf(base), base.limit);
    var full := AnswerIsWindow(base, Flatten(tables), reference);
    RowLeqTotalPreorder(base.sort);
    ContributionUnion(base, tables);
    AllFetched(base, sources, tables, answers);
    PageAgrees(leq, Reach(base, tables), OffsetOf(base), PageSize(base, tables), contributions, answers, merged, full);
    UnionLength(leq, Reach(base, tables), contributions, answers);
    PermutationLength(merged, Flatten(answers));
    PermutationLength(full, Flatten(contributions));
    WindowIsPage(merged, OffsetOf(base), base.limit, |Flatten(tables)|);
    WindowIsPage(full, OffsetOf(base), base.limit, |Flatten(tables)|);
  }

  /** When no two different rows tie, equal sort keys are equal rows. */
  lemma TopNTotalOrder(base: SubQuery, sources: seq<SubQuery>, tables: seq<seq<Row>>,
                       answers: seq<seq<Row>>, out: seq<Row>, reference: seq<Row>)
    requires Federation(base, sources, tables, answers) && base.sort != []
    requires FederatedResult(base, answers, out) && Answers(base, Flatten(tables), reference)
    requires forall a, b :: a in out && b in reference && Equivalent(RowLeq(base.sort), a, b) ==> a == b
    ensures out == reference
  {
    TopNPushdown(base, sources, tables, answers, out, reference);
  }

  /** Without ORDER BY the federation returns the very rows, in the union's order. */
  lemma UnionAllPushdown(base: SubQuery, sources: seq<SubQuery>, tables: seq<seq<Row>>,
                         answers: seq<seq<Row>>, out: seq<Row>, reference: seq<Row>)
    requires Federation(base, sources, tables, answers) && base.sort == []
    requires FederatedResult(base, answers, out) && Answers(base, Flatten(tables), reference)
    ensures out == reference
  {
    var contributions := Map(t => Contribution(base, t), tables);
    var full := AnswerIsWindow(base, Flatten(tables), reference);
    ContributionUnion(base, tables);
    AllFirstRows(base, sources, tables, answers);
    FirstRowsShorter(Reach(base, tables), contributions, answers);
    UnsortedPageAgrees(Reach(base, tables), OffsetOf(base), PageSize(base, tables), contributions, answers);
    WindowIsPage(Flatten(answers), OffsetOf(base), base.limit, |Flatten(tables)|);
    WindowIsPage(full, OffsetOf(base), base.limit, |Flatten(tables)|);
  }

  // ---- The conditions are exact ---------------------------------------------

  /** Whatever the sources hold, the page cut from what they send is right: in its sort keys,
      or without ORDER BY row for row. */
  ghost predicate PageAlwaysRight(base: SubQuery, n: Option<nat>) {
    if base.sort == [] then AlwaysSameRows<Row>(n, OffsetOf(base), base.limit)
    else AlwaysRight(RowLeq(base.sort), n, OffsetOf(base), base.limit)
  }

  lemma PageAlwaysRightIff(base: SubQuery, n: Option<nat>)
    ensures PageAlwaysRight(base, n) <==> Enough(n, OffsetOf(base), base.limit)
  {
    RowLeqTotalPreorder(base.sort);
    AlwaysRightIff(RowLeq(base.sort), n, OffsetOf(base), base.limit, map[]);
    AlwaysSameRowsIff<Row>(n, OffsetOf(base), base.limit, map[]);
  }

  /** With `optimize` first, sources that carry a limit `own` give the right page for every
      content exactly when that limit reaches the page's end, or no row is wanted; without a
      LIMIT, exactly when they carry none. */
  lemma OwnLimitExact(base: SubQuery, own: SubQuery)
    requires Plain(base) && NoSaturation(base) && Fresh(own)
    ensures
      PageAlwaysRight(base, PushDown(Optimized(base), own).limit) <==>
      base.limit == Some(0) || Roomy(base, own.limit)
  {
    PageAlwaysRightIff(base, PushDown(Optimized(base), own).limit);
  }

  /** Pushing the base query as it stands, without `optimize`, forgets the offset: the page
      is right for every content exactly when no row is wanted, or a source's own limit does
      not undercut the page and the query has no offset or no LIMIT. */
  lemma OffsetForgotten(base: SubQuery, own: SubQuery)
    requires Plain(base) && Fresh(own)
    ensures
      PageAlwaysRight(base, PushDown(base, own).limit) <==>
      base.limit == Some(0) || (Roomy(base, own.limit) && (base.limit.None? || OffsetOf(base) == 0))
  {
    PageAlwaysRightIff(base, PushDown(base, own).limit);
  }
}
