/** Translation of a piped query into SQL clauses: each clause is the first command of its
    kind, wherever it stands in the pipe. */
module Ppl {
  import opened Base
  import opened Values
  import opened Sorting
  import opened RowOrder
  import opened Rewrite
  import opened Merger

  datatype StatsAgg = StatsAgg(func: string, field: Option<string>, alias: Option<string>)

  /** Aggregates per distinct value of the key columns. */
  datatype Grouping = Grouping(keys: seq<string>, aggs: seq<StatsAgg>)

  datatype Command =
    | Where(expr: string)
    | Stats(grouping: Grouping)
    | Sort(order: seq<SortExpr>)
    | Head(n: nat)
    | Fields(keep: bool, names: seq<string>)
    | Top(n: nat, fields: seq<string>)
    | Rare(fields: seq<string>)

  datatype PplQuery = PplQuery(sources: seq<string>, commands: seq<Command>)

  datatype SelectItem = Col(name: string) | Agg(agg: StatsAgg)

  datatype SelectList = Everything | Items(items: seq<SelectItem>)

  /** One SELECT per source under UNION ALL, then ORDER BY and LIMIT over the whole. */
  datatype Sql = Sql(select: SelectList, sources: seq<string>, where_: Option<string>,
                     groupBy: Option<seq<string>>, orderBy: Option<seq<SortExpr>>, limit: Option<nat>)

  // ---- The translation ------------------------------------------------------

  function FindWhere(cs: seq<Command>): Option<string> {
    if cs == [] then None else if cs[0].Where? then Some(cs[0].expr) else FindWhere(cs[1..])
  }

  function FindProjection(cs: seq<Command>): Option<seq<string>> {
    if cs == [] then None
    else if cs[0].Fields? && cs[0].keep then Some(cs[0].names)
    else FindProjection(cs[1..])
  }

  function FindStats(cs: seq<Command>): Option<Grouping> {
    if cs == [] then None else if cs[0].Stats? then Some(cs[0].grouping) else FindStats(cs[1..])
  }

  function FindSort(cs: seq<Command>): Option<seq<SortExpr>> {
    if cs == [] then None else if cs[0].Sort? then Some(cs[0].order) else FindSort(cs[1..])
  }

  function FindHead(cs: seq<Command>): Option<nat> {
    if cs == [] then None else if cs[0].Head? then Some(cs[0].n) else FindHead(cs[1..])
  }

  function FindTop(cs: seq<Command>): (r: Option<Command>)
    ensures r.Some? ==> r.value.Top?
  {
    if cs == [] then None else if cs[0].Top? then Some(cs[0]) else FindTop(cs[1..])
  }

  function FindRare(cs: seq<Command>): (r: Option<Command>)
    ensures r.Some? ==> r.value.Rare?
  {
    if cs == [] then None else if cs[0].Rare? then Some(cs[0]) else FindRare(cs[1..])
  }

  const COUNT: StatsAgg := StatsAgg("COUNT", None, Some("count"))

  function GroupBy(g: Grouping): Option<seq<string>> { if g.keys == [] then None else Some(g.keys) }

  function Cols(names: seq<string>): (items: seq<SelectItem>)
    ensures |items| == |names| && forall i :: 0 <= i < |names| ==> items[i] == Col(names[i])
  {
    Map(n => Col(n), names)
  }

  function Aggs(aggs: seq<StatsAgg>): (items: seq<SelectItem>)
    ensures |items| == |aggs| && forall i :: 0 <= i < |aggs| ==> items[i] == Agg(aggs[i])
  {
    Map(a => Agg(a), aggs)
  }

  /** The key columns, then the aggregates. */
  function ItemsOf(g: Grouping): seq<SelectItem> { Cols(g.keys) + Aggs(g.aggs) }

  function CountBy(fields: seq<string>): Grouping { Grouping(fields, [COUNT]) }

  function PplToSql(q: PplQuery): Outcome<Sql> {
    if q.sources == [] then Err("No sources specified")
    else
      var cs := q.commands;
      var w := FindWhere(cs);
      if FindTop(cs).Some? then
        var top := FindTop(cs).value;
        Ok(Sql(Items(ItemsOf(CountBy(top.fields))), q.sources, w, Some(top.fields),
               Some([SortExpr("count", true)]), Some(top.n)))
      else if FindRare(cs).Some? then
        var rare := FindRare(cs).value;
        Ok(Sql(Items(ItemsOf(CountBy(rare.fields))), q.sources, w, Some(rare.fields),
               Some([SortExpr("count", false)]), Some(10)))
      else if FindStats(cs).Some? then
        var stats := FindStats(cs).value;
        Ok(Sql(Items(ItemsOf(stats)), q.sources, w, GroupBy(stats), FindSort(cs), FindHead(cs)))
      else
        var select := if FindProjection(cs).Some? then Items(Cols(FindProjection(cs).value)) else Everything;
        Ok(Sql(select, q.sources, w, None, FindSort(cs), FindHead(cs)))
  }

  // ---- What rows, groups and clauses mean -----------------------------------

  /** What predicate texts and aggregates mean on rows. */
  datatype Meaning = Meaning(holds: (string, Row) -> bool, agg: (StatsAgg, seq<Row>) -> ScalarValue) {
    function Test(expr: string): Row -> bool { row => holds(expr, row) }
  }

  function AggName(a: StatsAgg): string {
    if a.alias.Some? then a.alias.value
    else a.func + "(" + (if a.field.Some? then a.field.value else "*") + ")"
  }

  function AggColumns(m: Meaning, aggs: seq<StatsAgg>, rows: seq<Row>): Row {
    if aggs == [] then map[]
    else AggColumns(m, aggs[..|aggs| - 1], rows)[AggName(aggs[|aggs| - 1]) := m.agg(aggs[|aggs| - 1], rows)]
  }

  function KeyColumns(keys: seq<string>, k: DedupKey): Row
    requires |k| == |keys|
  {
    if keys == [] then map[]
    else
      var n := |keys| - 1;
      KeyColumns(keys[..n], k[..n])[keys[n] := k[n]]
  }

  function InGroup(keys: seq<string>, k: DedupKey): Row -> bool { row => KeyOf(keys, row) == k }

  /** The output row of the group with key `k`. */
  function GroupRow(m: Meaning, g: Grouping, rows: seq<Row>): DedupKey -> Row {
    k => (if |k| == |g.keys| then KeyColumns(g.keys, k) else map[]) +
         AggColumns(m, g.aggs, Filter(InGroup(g.keys, k), rows))
  }

  /** One row per distinct key, in any order; without keys, one row for everything. */
  ghost predicate Grouped(m: Meaning, g: Grouping, rows: seq<Row>, out: seq<Row>) {
    if g.keys == [] then out == [AggColumns(m, g.aggs, rows)]
    else exists ks :: KeysListed(g.keys, rows, ks) && out == Map(GroupRow(m, g, rows), ks)
  }

  ghost predicate KeysListed(keys: seq<string>, rows: seq<Row>, ks: seq<DedupKey>) {
    NoDuplicates(ks) && forall k :: k in ks <==> HasKey(keys, rows, k)
  }

  function FilteredBy(m: Meaning, w: Option<string>, rows: seq<Row>): seq<Row> {
    if w.Some? then Filter(m.Test(w.value), rows) else rows
  }

  ghost predicate OrderedBy(sort: Option<seq<SortExpr>>, rows: seq<Row>, listed: seq<Row>) {
    if sort.Some? then SortsTo(RowLeq(sort.value), rows, listed) else listed == rows
  }

  function Remover(names: seq<string>): Row -> Row {
    row => map name | name in row && name !in names :: row[name]
  }

  function Projector(names: seq<string>): Row -> Row { row => Project(names, row) }

  ghost predicate HasAggregate(items: seq<SelectItem>) {
    exists i :: 0 <= i < |items| && items[i].Agg?
  }

  /** A query with a GROUP BY or an aggregate returns groups, any other one rows. */
  ghost predicate Aggregating(sql: Sql) {
    sql.groupBy.Some? || (sql.select.Items? && HasAggregate(sql.select.items))
  }

  /** The columns a select list without aggregates names. */
  function ColumnNames(items: seq<SelectItem>): seq<string> {
    Map((x: SelectItem) => if x.Col? then x.name else AggName(x.agg), items)
  }

  /** The output row of a group: key columns by name, aggregates over its rows. */
  function ItemRow(m: Meaning, items: seq<SelectItem>, key: Row, group: seq<Row>): Row {
    if items == [] then map[]
    else
      var rest, last := ItemRow(m, items[..|items| - 1], key, group), items[|items| - 1];
      match last
      case Col(name) => rest[name := Column(key, name)]
      case Agg(a) => rest[AggName(a) := m.agg(a, group)]
  }

  function ItemRowOf(m: Meaning, items: seq<SelectItem>, keys: seq<string>, rows: seq<Row>): DedupKey -> Row {
    k => ItemRow(m, items, if |k| == |keys| then KeyColumns(keys, k) else map[], Filter(InGroup(keys, k), rows))
  }

  /** A column beside aggregates must be one of the grouping columns. */
  ghost predicate ColumnsGrouped(items: seq<SelectItem>, keys: seq<string>) {
    forall i :: 0 <= i < |items| && items[i].Col? ==> items[i].name in keys
  }

  /** The groups GROUP BY asks for, one row each in any order; without the clause all rows
      are one group. */
  ghost predicate GroupsSelected(m: Meaning, items: seq<SelectItem>, groupBy: Option<seq<string>>, rows: seq<Row>,
                                 out: seq<Row>) {
    match groupBy
    case None => ColumnsGrouped(items, []) && out == [ItemRow(m, items, map[], rows)]
    case Some(keys) =>
      && ColumnsGrouped(items, keys)
      && exists ks :: KeysListed(keys, rows, ks) && out == Map(ItemRowOf(m, items, keys, rows), ks)
  }

  /** One source's SELECT before any ordering; a query SQL rejects has no answer. */
  ghost predicate Selected(m: Meaning, sql: Sql, table: seq<Row>, out: seq<Row>) {
    var rows := FilteredBy(m, sql.where_, table);
    match sql.select
    case Everything => sql.groupBy.None? && out == rows
    case Items(items) =>
      && items != []
      && if Aggregating(sql) then GroupsSelected(m, items, sql.groupBy, rows, out)
         else out == Map(Projector(ColumnNames(items)), rows)
  }

  ghost predicate AllSelected(m: Meaning, sql: Sql, tables: seq<seq<Row>>, parts: seq<seq<Row>>) {
    |parts| == |tables| && forall i :: 0 <= i < |tables| ==> Selected(m, sql, tables[i], parts[i])
  }

  /** A single SELECT of columns may be ordered by columns it does not return. */
  ghost predicate OrdersFirst(sql: Sql, tables: nat) {
    tables == 1 && sql.select.Items? && sql.select.items != [] && !Aggregating(sql)
  }

  /** An answer of the SQL engine.  A UNION ALL is ordered by what it returns. */
  ghost predicate SqlAnswers(m: Meaning, sql: Sql, tables: seq<seq<Row>>, out: seq<Row>) {
    if OrdersFirst(sql, |tables|) then
      exists listed ::
        && OrderedBy(sql.orderBy, FilteredBy(m, sql.where_, tables[0]), listed)
        && out == Map(Projector(ColumnNames(sql.select.items)), Limited(sql.limit, listed))
    else
      exists parts, listed ::
        && AllSelected(m, sql, tables, parts)
        && OrderedBy(sql.orderBy, Flatten(parts), listed)
        && out == Limited(sql.limit, listed)
  }

  // ---- What the pipe means --------------------------------------------------

  ghost predicate Does(m: Meaning, c: Command, rows: seq<Row>, out: seq<Row>) {
    match c
    case Where(expr) => out == Filter(m.Test(expr), rows)
    case Stats(g) => Grouped(m, g, rows, out)
    case Sort(order) => SortsTo(RowLeq(order), rows, out)
    case Head(n) => out == Take(rows, n)
    case Fields(keep, names) => out == Map(if keep then Projector(names) else Remover(names), rows)
    case Top(n, fields) => Frequent(m, fields, true, n, rows, out)
    case Rare(fields) => Frequent(m, fields, false, 10, rows, out)
  }

  /** The `n` most (or least) frequent keys with their counts. */
  ghost predicate Frequent(m: Meaning, fields: seq<string>, most: bool, n: nat, rows: seq<Row>, out: seq<Row>) {
    GroupsAnswer(m, CountBy(fields), Some([SortExpr("count", most)]), Some(n), rows, out)
  }

  /** The groups of the rows, ordered and cut. */
  ghost predicate GroupsAnswer(m: Meaning, g: Grouping, sort: Option<seq<SortExpr>>, limit: Option<nat>,
                               rows: seq<Row>, out: seq<Row>) {
    exists groups, listed ::
      Grouped(m, g, rows, groups) && OrderedBy(sort, groups, listed) && out == Limited(limit, listed)
  }

  /** Running the commands from left to right. */
  ghost predicate PipeAnswers(m: Meaning, cs: seq<Command>, rows: seq<Row>, out: seq<Row>) {
    if cs == [] then out == rows
    else exists mid :: Does(m, cs[0], rows, mid) && PipeAnswers(m, cs[1..], mid, out)
  }

  // ---- Canonical pipelines --------------------------------------------------

  /** where, then stats, sort, head — or where, sort, head, then fields; each at most once. */
  datatype Pipeline = Pipeline(where_: Option<string>, stats: Option<Grouping>, sort: Option<seq<SortExpr>>,
                               head: Option<nat>, fields: Option<seq<string>>)

  function Opt<T>(o: Option<T>, f: T -> Command): seq<Command> {
    if o.Some? then [f(o.value)] else []
  }

  function Wheres(p: Pipeline): seq<Command> { Opt(p.where_, e => Where(e)) }
  function Statses(p: Pipeline): seq<Command> { Opt(p.stats, g => Stats(g)) }
  function Sorts(p: Pipeline): seq<Command> { Opt(p.sort, s => Sort(s)) }
  function Heads(p: Pipeline): seq<Command> { Opt(p.head, n => Head(n)) }
  function Fieldses(p: Pipeline): seq<Command> { Opt(p.fields, ns => Fields(true, ns)) }

  function Commands(p: Pipeline): seq<Command> {
    Wheres(p) + Statses(p) + Sorts(p) + Heads(p) + Fieldses(p)
  }

  /** The parser yields at least one aggregate for stats and one name for fields. */
  predicate Canonical(p: Pipeline, sources: nat) {
    && (p.stats.Some? ==> sources == 1 && p.fields.None? && p.stats.value.aggs != [])
    && (p.fields.Some? ==> p.fields.value != [])
    && (p.fields.Some? && p.sort.Some? && sources > 1 ==> SortFields(p.sort.value) <= Elements(p.fields.value))
  }

  function SelectOf(p: Pipeline): SelectList {
    if p.stats.Some? then Items(ItemsOf(p.stats.value))
    else if p.fields.Some? then Items(Cols(p.fields.value))
    else Everything
  }

  lemma FindSkips(a: seq<Command>, b: seq<Command>)
    requires |a| <= 1
    ensures FindWhere(a + b) == if a != [] && a[0].Where? then Some(a[0].expr) else FindWhere(b)
    ensures FindStats(a + b) == if a != [] && a[0].Stats? then Some(a[0].grouping) else FindStats(b)
    ensures FindSort(a + b) == if a != [] && a[0].Sort? then Some(a[0].order) else FindSort(b)
    ensures FindHead(a + b) == if a != [] && a[0].Head? then Some(a[0].n) else FindHead(b)
    ensures FindProjection(a + b) ==
      if a != [] && a[0].Fields? && a[0].keep then Some(a[0].names) else FindProjection(b)
    ensures FindTop(a + b) == if a != [] && a[0].Top? then Some(a[0]) else FindTop(b)
    ensures FindRare(a + b) == if a != [] && a[0].Rare? then Some(a[0]) else FindRare(b)
  {
    if a == [] {
      assert a + b == b;
    } else {
      assert (a + b)[0] == a[0] && (a + b)[1..] == b;
    }
  }

  /** On a canonical pipeline every clause is the command of its kind. */
  lemma CanonicalSql(p: Pipeline, sources: seq<string>)
    requires Canonical(p, |sources|) && sources != []
    ensures PplToSql(PplQuery(sources, Commands(p))) == Ok(CanonicalClauses(p, sources))
  {
    FindsInOrder(Wheres(p), Statses(p), Sorts(p), Heads(p), Fieldses(p));
  }

  /** Each extractor finds its own command, wherever the others stand. */
  lemma FindsInOrder(w: seq<Command>, t: seq<Command>, s: seq<Command>, h: seq<Command>, f: seq<Command>)
    requires |w| <= 1 && |t| <= 1 && |s| <= 1 && |h| <= 1 && |f| <= 1
    requires (w == [] || w[0].Where?) && (t == [] || t[0].Stats?) && (s == [] || s[0].Sort?)
    requires (h == [] || h[0].Head?) && (f == [] || (f[0].Fields? && f[0].keep))
    ensures
      var cs := w + t + s + h + f;
      && FindWhere(cs) == (if w == [] then None else Some(w[0].expr))
      && FindStats(cs) == (if t == [] then None else Some(t[0].grouping))
      && FindSort(cs) == (if s == [] then None else Some(s[0].order))
      && FindHead(cs) == (if h == [] then None else Some(h[0].n))
      && FindProjection(cs) == (if f == [] then None else Some(f[0].names))
      && FindTop(cs).None? && FindRare(cs).None?
  {
    assert w + t + s + h + f == w + (t + (s + (h + (f + []))));
    FindSkips(f, []);
    FindSkips(h, f + []);
    FindSkips(s, h + (f + []));
    FindSkips(t, s + (h + (f + [])));
    FindSkips(w, t + (s + (h + (f + []))));
  }

  // ---- The pipe of a canonical pipeline -------------------------------------

  lemma PipeOne(m: Meaning, a: seq<Command>, b: seq<Command>, rows: seq<Row>, out: seq<Row>)
    requires |a| <= 1
    ensures PipeAnswers(m, a + b, rows, out) <==>
      if a == [] then PipeAnswers(m, b, rows, out)
      else exists mid :: Does(m, a[0], rows, mid) && PipeAnswers(m, b, mid, out)
  {
    if a == [] {
      assert a + b == b;
    } else {
      assert (a + b)[0] == a[0] && (a + b)[1..] == b;
    }
  }

  function Shown(p: Pipeline, rows: seq<Row>): seq<Row> {
    if p.fields.Some? then Map(Projector(p.fields.value), rows) else rows
  }

  lemma PipeFields(m: Meaning, p: Pipeline, rows: seq<Row>, out: seq<Row>)
    ensures PipeAnswers(m, Fieldses(p) + [], rows, out) <==> out == Shown(p, rows)
  {
    PipeOne(m, Fieldses(p), [], rows, out);
    if p.fields.Some? {
      assert Does(m, Fieldses(p)[0], rows, Shown(p, rows)) && PipeAnswers(m, [], Shown(p, rows), Shown(p, rows));
    }
  }

  lemma PipeHead(m: Meaning, p: Pipeline, rows: seq<Row>, out: seq<Row>)
    ensures PipeAnswers(m, Heads(p) + (Fieldses(p) + []), rows, out) <==> out == Shown(p, Limited(p.head, rows))
  {
    PipeOne(m, Heads(p), Fieldses(p) + [], rows, out);
    PipeFields(m, p, Limited(p.head, rows), out);
    if p.head.Some? {
      assert Does(m, Heads(p)[0], rows, Limited(p.head, rows));
    }
  }

  /** Sorting, cutting and projecting at the end of the pipe. */
  ghost predicate TailAnswers(p: Pipeline, rows: seq<Row>, out: seq<Row>) {
    exists listed :: OrderedBy(p.sort, rows, listed) && out == Shown(p, Limited(p.head, listed))
  }

  lemma PipeSort(m: Meaning, p: Pipeline, rows: seq<Row>, out: seq<Row>)
    ensures PipeAnswers(m, Sorts(p) + (Heads(p) + (Fieldses(p) + [])), rows, out) <==> TailAnswers(p, rows, out)
  {
    var rest := Heads(p) + (Fieldses(p) + []);
    PipeOne(m, Sorts(p), rest, rows, out);
    forall mid ensures PipeAnswers(m, rest, mid, out) <==> out == Shown(p, Limited(p.head, mid)) {
      PipeHead(m, p, mid, out);
    }
    if p.sort.Some? {
      forall mid ensures Does(m, Sorts(p)[0], rows, mid) <==> OrderedBy(p.sort, rows, mid) {}
    } else {
      assert OrderedBy(p.sort, rows, rows);
    }
  }

  lemma PipeStats(m: Meaning, p: Pipeline, rows: seq<Row>, out: seq<Row>)
    ensures PipeAnswers(m, Statses(p) + (Sorts(p) + (Heads(p) + (Fieldses(p) + []))), rows, out) <==>
      StatsAnswers(m, p, rows, out)
  {
    var rest := Sorts(p) + (Heads(p) + (Fieldses(p) + []));
    PipeOne(m, Statses(p), rest, rows, out);
    forall mid ensures PipeAnswers(m, rest, mid, out) <==> TailAnswers(p, mid, out) {
      PipeSort(m, p, mid, out);
    }
    if p.stats.Some? {
      forall mid ensures Does(m, Statses(p)[0], rows, mid) <==> Grouped(m, p.stats.value, rows, mid) {}
    }
  }

  ghost predicate StatsAnswers(m: Meaning, p: Pipeline, rows: seq<Row>, out: seq<Row>) {
    if p.stats.Some? then exists groups :: Grouped(m, p.stats.value, rows, groups) && TailAnswers(p, groups, out)
    else TailAnswers(p, rows, out)
  }

  /** Running a canonical pipeline: filter, group if asked, order, cut, project. */
  lemma PipeCanonical(m: Meaning, p: Pipeline, rows: seq<Row>, out: seq<Row>)
    ensures PipeAnswers(m, Commands(p), rows, out) <==> StatsAnswers(m, p, FilteredBy(m, p.where_, rows), out)
  {
    var rest := Statses(p) + (Sorts(p) + (Heads(p) + (Fieldses(p) + [])));
    assert Commands(p) == Wheres(p) + rest;
    PipeOne(m, Wheres(p), rest, rows, out);
    PipeStats(m, p, FilteredBy(m, p.where_, rows), out);
    if p.where_.Some? {
      assert Does(m, Wheres(p)[0], rows, FilteredBy(m, p.where_, rows));
    }
  }

  // ---- Lifting an ordering through a projection -----------------------------

  /** Any listing of mapped elements is the map of some listing of the elements. */
  lemma {:induction false} LiftPermutation<A, B>(f: A -> B, s: seq<A>, listed: seq<B>) returns (full: seq<A>)
    requires multiset(Map(f, s)) == multiset(listed)
    ensures multiset(full) == multiset(s) && Map(f, full) == listed
  {
    PermutationLength(Map(f, s), listed);
    if s == [] {
      full := [];
    } else {
      var front, last := s[..|s| - 1], s[|s| - 1];
      var k := Locate(Map(f, s), listed);
      assert Map(f, s)[..|s| - 1] == Map(f, front);
      var rest := LiftPermutation(f, front, listed[..k] + listed[k + 1..]);
      assert |Map(f, rest)| == |listed| - 1;
      full := rest[..k] + [last] + rest[k..];
      InsertedMultiset(rest, k, front, last);
      assert s == front + [last];
      LiftedAt(f, rest, last, listed, k);
    }
  }

  lemma InsertedMultiset<A>(rest: seq<A>, k: nat, front: seq<A>, last: A)
    requires k <= |rest| && multiset(rest) == multiset(front)
    ensures multiset(rest[..k] + [last] + rest[k..]) == multiset(front + [last])
  {
    assert rest == rest[..k] + rest[k..];
  }

  lemma LiftedAt<A, B>(f: A -> B, rest: seq<A>, last: A, listed: seq<B>, k: nat)
    requires k < |listed| && listed[k] == f(last)
    requires Map(f, rest) == listed[..k] + listed[k + 1..]
    ensures k <= |rest| && Map(f, rest[..k] + [last] + rest[k..]) == listed
  {
    assert |rest| == |listed| - 1;
    var full := rest[..k] + [last] + rest[k..];
    forall i | 0 <= i < |listed| ensures f(full[i]) == listed[i] {
      if i < k {
        assert full[i] == rest[i] && Map(f, rest)[i] == listed[i];
      } else if i > k {
        assert full[i] == rest[i - 1] && Map(f, rest)[i - 1] == listed[i];
      }
    }
  }

  /** Ordering what was projected is projecting what was ordered. */
  lemma ProjectedOrder(sort: Option<seq<SortExpr>>, names: seq<string>, rows: seq<Row>, full: seq<Row>)
    requires sort.Some? ==> SortFields(sort.value) <= Elements(names)
    requires sort.Some? ==> multiset(full) == multiset(rows)
    requires sort.None? ==> |full| == |rows|
    ensures OrderedBy(sort, rows, full) ==> OrderedBy(sort, Map(Projector(names), rows), Map(Projector(names), full))
    ensures sort.Some? && OrderedBy(sort, Map(Projector(names), rows), Map(Projector(names), full)) ==>
      OrderedBy(sort, rows, full)
  {
    if sort.Some? {
      var f, leq := Projector(names), RowLeq(sort.value);
      MapPermutation(f, rows, full);
      forall i, j | 0 <= i < j < |full| ensures leq(Map(f, full)[i], Map(f, full)[j]) == leq(full[i], full[j]) {
        ProjectKeepsOrder(sort.value, names, full[i], full[j]);
      }
    }
  }

  lemma LimitedMap<A, B>(f: A -> B, n: Option<nat>, s: seq<A>)
    ensures Map(f, Limited(n, s)) == Limited(n, Map(f, s))
  {
    if n.Some? { MapTake(f, s, n.value); }
  }

  /** Projecting before or after ordering and cutting gives the same answers. */
  lemma ProjectEarly(p: Pipeline, names: seq<string>, rows: seq<Row>, out: seq<Row>)
    requires p.fields == Some(names) && (p.sort.Some? ==> SortFields(p.sort.value) <= Elements(names))
    ensures TailAnswers(p, rows, out) <==> OrderedThenCut(p, Map(Projector(names), rows), out)
  {
    var f := Projector(names);
    if TailAnswers(p, rows, out) {
      var full :| OrderedBy(p.sort, rows, full) && out == Shown(p, Limited(p.head, full));
      ProjectedOrder(p.sort, names, rows, full);
      LimitedMap(f, p.head, full);
      assert OrderedBy(p.sort, Map(f, rows), Map(f, full));
    }
    if OrderedThenCut(p, Map(f, rows), out) {
      var listed :| OrderedBy(p.sort, Map(f, rows), listed) && out == Limited(p.head, listed);
      var full := rows;
      if p.sort.Some? {
        full := LiftPermutation(f, rows, listed);
        ProjectedOrder(p.sort, names, rows, full);
      }
      LimitedMap(f, p.head, full);
      assert OrderedBy(p.sort, rows, full);
    }
  }

  ghost predicate OrderedThenCut(p: Pipeline, rows: seq<Row>, out: seq<Row>) {
    exists listed :: OrderedBy(p.sort, rows, listed) && out == Limited(p.head, listed)
  }

  // ---- The SQL of a canonical pipeline --------------------------------------

  function CanonicalClauses(p: Pipeline, sources: seq<string>): Sql {
    Sql(SelectOf(p), sources, p.where_, if p.stats.Some? then GroupBy(p.stats.value) else None, p.sort, p.head)
  }

  lemma {:induction false} FilteredByFlatten(m: Meaning, w: Option<string>, tables: seq<seq<Row>>)
    ensures FilteredBy(m, w, Flatten(tables)) == Flatten(Map(t => FilteredBy(m, w, t), tables))
  {
    var each := (t: seq<Row>) => FilteredBy(m, w, t);
    if w.Some? {
      FilterFlatten(m.Test(w.value), tables);
      assert Map(each, tables) == Map(s => Filter(m.Test(w.value), s), tables);
    } else {
      assert Map(each, tables) == tables;
    }
  }

  /** What a query without aggregation selects. */
  function SelectedRows(m: Meaning, sql: Sql, table: seq<Row>): seq<Row> {
    var rows := FilteredBy(m, sql.where_, table);
    if sql.select.Items? then Map(Projector(ColumnNames(sql.select.items)), rows) else rows
  }

  ghost predicate Plain(sql: Sql) {
    !Aggregating(sql) && (sql.select.Items? ==> sql.select.items != [])
  }

  /** Without aggregation the union of the SELECTs is the SELECT of the union. */
  lemma UnionOfSelects(m: Meaning, sql: Sql, tables: seq<seq<Row>>, parts: seq<seq<Row>>)
    requires Plain(sql)
    ensures AllSelected(m, sql, tables, parts) <==> parts == Map(t => SelectedRows(m, sql, t), tables)
    ensures AllSelected(m, sql, tables, parts) ==> Flatten(parts) == SelectedRows(m, sql, Flatten(tables))
  {
    var each := (t: seq<Row>) => SelectedRows(m, sql, t);
    forall t, part ensures Selected(m, sql, t, part) <==> part == each(t) {}
    if AllSelected(m, sql, tables, parts) {
      assert parts == Map(each, tables);
      FilteredByFlatten(m, sql.where_, tables);
      var kept := Map(t => FilteredBy(m, sql.where_, t), tables);
      if sql.select.Items? {
        var project := Projector(ColumnNames(sql.select.items));
        MapFlatten(project, kept);
        assert parts == Map(s => Map(project, s), kept);
      } else {
        assert parts == kept;
      }
    }
  }

  lemma CanonicalIsPlain(p: Pipeline, sources: seq<string>)
    requires p.stats.None? && (p.fields.Some? ==> p.fields.value != [])
    ensures Plain(CanonicalClauses(p, sources))
    ensures p.fields.Some? ==> ColumnNames(Cols(p.fields.value)) == p.fields.value
  {
    if p.fields.Some? {
      assert ColumnNames(Cols(p.fields.value)) == p.fields.value;
    }
  }

  /** A query without aggregation orders and cuts the selected rows of the union. */
  lemma PlainSql(m: Meaning, p: Pipeline, sources: seq<string>, tables: seq<seq<Row>>, out: seq<Row>)
    requires p.stats.None? && (p.fields.Some? ==> p.fields.value != []) && (|tables| == 1 ==> p.fields.None?)
    ensures
      var sql := CanonicalClauses(p, sources);
      SqlAnswers(m, sql, tables, out) <==> OrderedThenCut(p, SelectedRows(m, sql, Flatten(tables)), out)
  {
    var sql := CanonicalClauses(p, sources);
    CanonicalIsPlain(p, sources);
    var parts := Map(t => SelectedRows(m, sql, t), tables);
    UnionOfSelects(m, sql, tables, parts);
    if SqlAnswers(m, sql, tables, out) {
      var given, listed :| AllSelected(m, sql, tables, given) && OrderedBy(p.sort, Flatten(given), listed) &&
                           out == Limited(p.head, listed);
      UnionOfSelects(m, sql, tables, given);
    }
    if OrderedThenCut(p, SelectedRows(m, sql, Flatten(tables)), out) {
      var listed :| OrderedBy(p.sort, SelectedRows(m, sql, Flatten(tables)), listed) && out == Limited(p.head, listed);
      assert AllSelected(m, sql, tables, parts) && OrderedBy(p.sort, Flatten(parts), listed);
    }
  }

  // ---- GROUP BY and the stats command ---------------------------------------

  lemma {:induction false} KeyColumnsKeys(keys: seq<string>, k: DedupKey)
    requires |k| == |keys|
    ensures KeyColumns(keys, k).Keys == Elements(keys)
  {
    if keys != [] {
      var n := |keys| - 1;
      KeyColumnsKeys(keys[..n], k[..n]);
      assert keys == keys[..n] + [keys[n]];
    }
  }

  lemma {:induction false} KeyColumnsOf(fields: seq<string>, row: Row)
    ensures
      var c := KeyColumns(fields, KeyOf(fields, row));
      c.Keys == Elements(fields) && forall f :: f in fields ==> c[f] == Column(row, f)
  {
    if fields != [] {
      var n := |fields| - 1;
      KeyColumnsOf(fields[..n], row);
      assert KeyOf(fields, row)[..n] == KeyOf(fields[..n], row);
      assert fields == fields[..n] + [fields[n]];
    }
  }

  /** The key columns of a select list give back those columns of the key. */
  lemma {:induction false} ColsRow(m: Meaning, names: seq<string>, key: Row, group: seq<Row>)
    requires Elements(names) <= key.Keys
    ensures ItemRow(m, Cols(names), key, group) == map n | n in key && n in names :: key[n]
  {
    if names != [] {
      var n := |names| - 1;
      assert Elements(names[..n]) <= Elements(names);
      ColsRow(m, names[..n], key, group);
      assert Cols(names)[..n] == Cols(names[..n]);
      assert names == names[..n] + [names[n]] && names[n] in Elements(names);
    }
  }

  lemma {:induction false} AggsRow(m: Meaning, items: seq<SelectItem>, aggs: seq<StatsAgg>, key: Row, group: seq<Row>)
    ensures ItemRow(m, items + Aggs(aggs), key, group) == ItemRow(m, items, key, group) + AggColumns(m, aggs, group)
  {
    var all := Aggs(aggs);
    if aggs == [] {
      assert items + all == items;
    } else {
      var n := |aggs| - 1;
      AggsRow(m, items, aggs[..n], key, group);
      assert items + all == (items + Aggs(aggs[..n])) + [Agg(aggs[n])];
      ItemRowSnoc(m, items + Aggs(aggs[..n]), Agg(aggs[n]), key, group);
      UpdateRight(ItemRow(m, items, key, group), AggColumns(m, aggs[..n], group), AggName(aggs[n]),
                  m.agg(aggs[n], group));
    }
  }

  lemma UpdateRight<K, V>(a: map<K, V>, b: map<K, V>, k: K, v: V)
    ensures (a + b)[k := v] == a + b[k := v]
  {}

  lemma ItemRowSnoc(m: Meaning, items: seq<SelectItem>, x: SelectItem, key: Row, group: seq<Row>)
    requires x.Agg?
    ensures ItemRow(m, items + [x], key, group) == ItemRow(m, items, key, group)[AggName(x.agg) := m.agg(x.agg, group)]
  {
    assert (items + [x])[..|items|] == items;
  }

  /** The row SQL makes of a group is the one the pipe makes of it. */
  lemma GroupItemRow(m: Meaning, g: Grouping, key: Row, group: seq<Row>)
    requires key.Keys == Elements(g.keys)
    ensures ItemRow(m, ItemsOf(g), key, group) == key + AggColumns(m, g.aggs, group)
  {
    ColsRow(m, g.keys, key, group);
    AggsRow(m, Cols(g.keys), g.aggs, key, group);
    assert (map n | n in key && n in g.keys :: key[n]) == key;
  }

  lemma GroupRowsAgree(m: Meaning, g: Grouping, rows: seq<Row>, ks: seq<DedupKey>)
    requires KeysListed(g.keys, rows, ks)
    ensures Map(ItemRowOf(m, ItemsOf(g), g.keys, rows), ks) == Map(GroupRow(m, g, rows), ks)
  {
    forall i | 0 <= i < |ks| ensures ItemRowOf(m, ItemsOf(g), g.keys, rows)(ks[i]) == GroupRow(m, g, rows)(ks[i]) {
      assert ks[i] in ks;
      KeyColumnsKeys(g.keys, ks[i]);
      GroupItemRow(m, g, KeyColumns(g.keys, ks[i]), Filter(InGroup(g.keys, ks[i]), rows));
    }
  }

  lemma GroupingItems(g: Grouping)
    ensures ColumnsGrouped(ItemsOf(g), g.keys)
    ensures g.aggs != [] ==> HasAggregate(ItemsOf(g))
  {
    if g.aggs != [] { assert ItemsOf(g)[|g.keys|] == Agg(g.aggs[0]); }
    forall i | 0 <= i < |ItemsOf(g)| && ItemsOf(g)[i].Col? ensures ItemsOf(g)[i].name in g.keys {
      assert i < |g.keys|;
    }
  }

  /** Selecting keys and aggregates under that GROUP BY is what the stats command does. */
  lemma GroupsAreStats(m: Meaning, g: Grouping, rows: seq<Row>, out: seq<Row>)
    ensures GroupsSelected(m, ItemsOf(g), GroupBy(g), rows, out) <==> Grouped(m, g, rows, out)
  {
    GroupingItems(g);
    if g.keys == [] {
      var none: Row := map[];
      GroupItemRow(m, g, none, rows);
      assert none + AggColumns(m, g.aggs, rows) == AggColumns(m, g.aggs, rows);
    } else {
      forall ks | KeysListed(g.keys, rows, ks)
        ensures Map(ItemRowOf(m, ItemsOf(g), g.keys, rows), ks) == Map(GroupRow(m, g, rows), ks)
      {
        GroupRowsAgree(m, g, rows, ks);
      }
    }
  }

  /** One source, keys and aggregates: the engine orders and cuts what the grouping makes of
      the filtered rows. */
  lemma AggregateSql(m: Meaning, sql: Sql, g: Grouping, table: seq<Row>, out: seq<Row>)
    requires sql.select == Items(ItemsOf(g)) && sql.groupBy == GroupBy(g) && g.aggs != []
    ensures SqlAnswers(m, sql, [table], out) <==>
      GroupsAnswer(m, g, sql.orderBy, sql.limit, FilteredBy(m, sql.where_, table), out)
  {
    var rows := FilteredBy(m, sql.where_, table);
    if SqlAnswers(m, sql, [table], out) {
      AnswerGivesGroups(m, sql, g, table, out);
    }
    if groups, listed :|
      Grouped(m, g, rows, groups) && OrderedBy(sql.orderBy, groups, listed) && out == Limited(sql.limit, listed)
    {
      GroupsGiveAnswer(m, sql, g, table, groups, listed);
    }
  }

  lemma AnswerGivesGroups(m: Meaning, sql: Sql, g: Grouping, table: seq<Row>, out: seq<Row>)
    requires sql.select == Items(ItemsOf(g)) && sql.groupBy == GroupBy(g) && g.aggs != []
    requires SqlAnswers(m, sql, [table], out)
    ensures GroupsAnswer(m, g, sql.orderBy, sql.limit, FilteredBy(m, sql.where_, table), out)
  {
    GroupingItems(g);
    assert !OrdersFirst(sql, 1);
    var parts, listed :| AllSelected(m, sql, [table], parts) && OrderedBy(sql.orderBy, Flatten(parts), listed) &&
                         out == Limited(sql.limit, listed);
    assert parts == [parts[0]] && Selected(m, sql, [table][0], parts[0]);
    SelectedGroups(m, sql, g, table, parts[0]);
    FlattenOne(parts[0]);
  }

  lemma SelectedGroups(m: Meaning, sql: Sql, g: Grouping, table: seq<Row>, groups: seq<Row>)
    requires sql.select == Items(ItemsOf(g)) && sql.groupBy == GroupBy(g) && g.aggs != []
    ensures Selected(m, sql, table, groups) <==> Grouped(m, g, FilteredBy(m, sql.where_, table), groups)
  {
    GroupingItems(g);
    GroupsAreStats(m, g, FilteredBy(m, sql.where_, table), groups);
  }

  lemma GroupsGiveAnswer(m: Meaning, sql: Sql, g: Grouping, table: seq<Row>, groups: seq<Row>, listed: seq<Row>)
    requires sql.select == Items(ItemsOf(g)) && sql.groupBy == GroupBy(g) && g.aggs != []
    requires Grouped(m, g, FilteredBy(m, sql.where_, table), groups) && OrderedBy(sql.orderBy, groups, listed)
    ensures SqlAnswers(m, sql, [table], Limited(sql.limit, listed))
  {
    GroupingItems(g);
    SelectedGroups(m, sql, g, table, groups);
    FlattenOne(groups);
    assert AllSelected(m, sql, [table], [groups]) && OrderedBy(sql.orderBy, Flatten([groups]), listed);
  }

  /** A stats pipeline over one source. */
  lemma StatsSql(m: Meaning, p: Pipeline, sources: seq<string>, table: seq<Row>, out: seq<Row>)
    requires p.stats.Some? && p.fields.None? && p.stats.value.aggs != []
    ensures SqlAnswers(m, CanonicalClauses(p, sources), [table], out) <==>
      StatsAnswers(m, p, FilteredBy(m, p.where_, table), out)
  {
    var rows := FilteredBy(m, p.where_, table);
    AggregateSql(m, CanonicalClauses(p, sources), p.stats.value, table, out);
    forall groups ensures TailAnswers(p, groups, out) <==> OrderedThenCut(p, groups, out) {}
  }

  lemma SqlCanonical(m: Meaning, p: Pipeline, sources: seq<string>, tables: seq<seq<Row>>, out: seq<Row>)
    requires Canonical(p, |sources|) && sources != [] && |tables| == |sources|
    ensures SqlAnswers(m, CanonicalClauses(p, sources), tables, out) <==>
      StatsAnswers(m, p, FilteredBy(m, p.where_, Flatten(tables)), out)
  {
    if |tables| == 1 {
      FlattenOne(tables[0]);
      assert tables == [tables[0]];
    }
    if p.stats.Some? {
      StatsSql(m, p, sources, tables[0], out);
    } else {
      CanonicalIsPlain(p, sources);
      if |tables| != 1 || p.fields.None? {
        PlainSql(m, p, sources, tables, out);
        if p.fields.Some? {
          ProjectEarly(p, p.fields.value, FilteredBy(m, p.where_, Flatten(tables)), out);
        }
      }
    }
  }

  /** On a canonical pipeline the generated SQL has exactly the answers of running the pipe
      from left to right over the union of the sources. */
  lemma CanonicalPreserved(m: Meaning, p: Pipeline, sources: seq<string>, tables: seq<seq<Row>>, out: seq<Row>)
    requires Canonical(p, |sources|) && sources != [] && |tables| == |sources|
    ensures
      var sql := PplToSql(PplQuery(sources, Commands(p)));
      && sql.Ok?
      && (SqlAnswers(m, sql.value, tables, out) <==> PipeAnswers(m, Commands(p), Flatten(tables), out))
  {
    CanonicalSql(p, sources);
    SqlCanonical(m, p, sources, tables, out);
    PipeCanonical(m, p, Flatten(tables), out);
  }
}
