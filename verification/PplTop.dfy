/** `top` and `rare`: the generated aggregate query answers with the most (or least)
    frequent values of the given fields. */
module PplTop {
  import opened Base
  import opened Values
  import opened Sorting
  import opened RowOrder
  import opened Merger
  import opened Ppl

  /** COUNT(*) counts. */
  ghost predicate Counts(m: Meaning) {
    forall rows :: m.agg(COUNT, rows) == Int64(|rows|)
  }

  /** How many rows carry the key. */
  function Frequency(fields: seq<string>, rows: seq<Row>, k: DedupKey): nat {
    |Filter(InGroup(fields, k), rows)|
  }

  function KeySet(fields: seq<string>, rows: seq<Row>): (s: set<DedupKey>) {
    set i | 0 <= i < |rows| :: KeyOf(fields, rows[i])
  }

  predicate Ranks(most: bool, a: nat, b: nat) { if most then a >= b else a <= b }

  /** Row `r` reports a key that occurs in `rows`, with its exact frequency and nothing else. */
  ghost predicate Reports(fields: seq<string>, rows: seq<Row>, r: Row) {
    && r.Keys == Elements(fields) + {"count"}
    && HasKey(fields, rows, KeyOf(fields, r))
    && r["count"] == Int64(Frequency(fields, rows, KeyOf(fields, r)))
  }

  /** `out` lists, in order of rank, as many distinct keys as asked for, and none of them is
      outranked by a key left out. */
  ghost predicate Frontrunners(most: bool, n: nat, fields: seq<string>, rows: seq<Row>, out: seq<Row>) {
    && |out| == Min(n, |KeySet(fields, rows)|)
    && AllReport(fields, rows, out)
    && NoDuplicates(Keys(fields, out))
    && Ranked(most, fields, rows, out)
    && NoneOutranked(most, fields, rows, Keys(fields, out))
  }

  ghost predicate AllReport(fields: seq<string>, rows: seq<Row>, out: seq<Row>) {
    forall i :: 0 <= i < |out| ==> Reports(fields, rows, out[i])
  }

  ghost predicate Ranked(most: bool, fields: seq<string>, rows: seq<Row>, out: seq<Row>) {
    forall i, j :: 0 <= i < j < |out| ==> RowRanks(most, fields, rows, out[i], out[j])
  }

  /** No key left out comes before one of those shown. */
  ghost predicate NoneOutranked(most: bool, fields: seq<string>, rows: seq<Row>, shown: seq<DedupKey>) {
    forall i, k :: 0 <= i < |shown| && HasKey(fields, rows, k) && k !in shown ==>
      Ranks(most, Frequency(fields, rows, shown[i]), Frequency(fields, rows, k))
  }

  function Keys(fields: seq<string>, out: seq<Row>): seq<DedupKey> { Map(r => KeyOf(fields, r), out) }

  predicate RowRanks(most: bool, fields: seq<string>, rows: seq<Row>, a: Row, b: Row) {
    Ranks(most, Frequency(fields, rows, KeyOf(fields, a)), Frequency(fields, rows, KeyOf(fields, b)))
  }

  // ---- The row of one group -------------------------------------------------

  lemma CountColumn(m: Meaning, group: seq<Row>)
    requires Counts(m)
    ensures AggColumns(m, [COUNT], group) == map["count" := Int64(|group|)]
  {
    assert [COUNT][..0] == [];
    assert AggColumns(m, [COUNT], group) == AggColumns(m, [], group)[AggName(COUNT) := m.agg(COUNT, group)];
  }

  lemma KeyBesideCount(fields: seq<string>, row: Row, v: ScalarValue)
    requires "count" !in fields
    ensures
      var r := KeyColumns(fields, KeyOf(fields, row)) + map["count" := v];
      r.Keys == Elements(fields) + {"count"} && r["count"] == v && KeyOf(fields, r) == KeyOf(fields, row)
  {
    var c := KeyColumns(fields, KeyOf(fields, row));
    KeyColumnsOf(fields, row);
    var r := c + map["count" := v];
    forall j | 0 <= j < |fields| ensures Column(r, fields[j]) == Column(row, fields[j]) {
      assert fields[j] in fields && fields[j] in c;
    }
  }

  lemma GroupReports(m: Meaning, fields: seq<string>, rows: seq<Row>, k: DedupKey)
    requires Counts(m) && "count" !in fields && HasKey(fields, rows, k)
    ensures
      var r := GroupRow(m, CountBy(fields), rows)(k);
      KeyOf(fields, r) == k && Reports(fields, rows, r)
  {
    var i :| 0 <= i < |rows| && KeyOf(fields, rows[i]) == k;
    CountColumn(m, Filter(InGroup(fields, k), rows));
    KeyBesideCount(fields, rows[i], Int64(Frequency(fields, rows, k)));
  }

  // ---- Listings of keys -----------------------------------------------------

  lemma PermutedDistinct<T>(s: seq<T>, t: seq<T>)
    requires multiset(s) == multiset(t) && NoDuplicates(s)
    ensures NoDuplicates(t) && forall x :: x in s <==> x in t
  {
    forall x ensures x in s <==> x in t {
      assert x in multiset(s) <==> x in s;
      assert x in multiset(t) <==> x in t;
    }
    forall i, j | 0 <= i < j < |t| ensures t[i] != t[j] {
      if t[i] == t[j] {
        TwiceCounted(t, i, j);
        Once(s, t[i]);
        assert false;
      }
    }
  }

  lemma TwiceCounted<T>(t: seq<T>, i: nat, j: nat)
    requires i < j < |t| && t[i] == t[j]
    ensures multiset(t)[t[i]] >= 2
  {
    assert t == t[..j] + [t[j]] + t[j + 1..];
    assert t[i] in t[..j];
  }

  lemma KeySetHas(fields: seq<string>, rows: seq<Row>, k: DedupKey)
    ensures k in KeySet(fields, rows) <==> HasKey(fields, rows, k)
  {}

  // ---- The answers ----------------------------------------------------------

  lemma CompareCounts(x: nat, y: nat)
    ensures CompareTotal(Int64(x), Int64(y)) == if x < y then Less else if x == y then Equal else Greater
  {
    assert x < y <==> x as real < y as real;
    assert x == y <==> x as real == y as real;
  }

  /** Group rows in order of their count are in order of their frequency. */
  lemma CountOrder(most: bool, fields: seq<string>, rows: seq<Row>, a: Row, b: Row)
    requires Reports(fields, rows, a) && Reports(fields, rows, b)
    ensures RowLeq([SortExpr("count", most)])(a, b) <==> RowRanks(most, fields, rows, a, b)
  {
    var order := [SortExpr("count", most)];
    var x, y := Frequency(fields, rows, KeyOf(fields, a)), Frequency(fields, rows, KeyOf(fields, b));
    assert order[1..] == [] && CompareRows(order[1..], a, b) == Equal;
    assert Column(a, "count") == Int64(x) && Column(b, "count") == Int64(y);
    CompareCounts(x, y);
  }

  lemma FrequentMeaning(m: Meaning, fields: seq<string>, most: bool, n: nat, rows: seq<Row>, out: seq<Row>)
    requires Counts(m) && fields != [] && "count" !in fields
    requires Frequent(m, fields, most, n, rows, out)
    ensures Frontrunners(most, n, fields, rows, out)
  {
    var row := GroupRow(m, CountBy(fields), rows);
    var order := Some([SortExpr("count", most)]);
    var groups, listed :| Grouped(m, CountBy(fields), rows, groups) && OrderedBy(order, groups, listed) &&
                          out == Limited(Some(n), listed);
    var ks :| KeysListed(fields, rows, ks) && groups == Map(row, ks);
    var lifted := LiftPermutation(row, ks, listed);
    PermutedDistinct(ks, lifted);
    ListedMeaning(m, fields, most, rows, lifted, listed);
    FirstFrontrunners(most, n, fields, rows, lifted, listed);
  }

  lemma ListedMeaning(m: Meaning, fields: seq<string>, most: bool, rows: seq<Row>, order: seq<DedupKey>,
                      listed: seq<Row>)
    requires Counts(m) && "count" !in fields
    requires KeysListed(fields, rows, order) && listed == Map(GroupRow(m, CountBy(fields), rows), order)
    requires Sorted(RowLeq([SortExpr("count", most)]), listed)
    ensures Keys(fields, listed) == order && AllReport(fields, rows, listed) && Ranked(most, fields, rows, listed)
  {
    forall i | 0 <= i < |listed| ensures KeyOf(fields, listed[i]) == order[i] && Reports(fields, rows, listed[i]) {
      assert order[i] in order;
      GroupReports(m, fields, rows, order[i]);
    }
    forall i, j | 0 <= i < j < |listed| ensures RowRanks(most, fields, rows, listed[i], listed[j]) {
      CountOrder(most, fields, rows, listed[i], listed[j]);
    }
  }

  lemma FirstFrontrunners(most: bool, n: nat, fields: seq<string>, rows: seq<Row>, order: seq<DedupKey>,
                          listed: seq<Row>)
    requires KeysListed(fields, rows, order) && Keys(fields, listed) == order
    requires AllReport(fields, rows, listed) && Ranked(most, fields, rows, listed)
    ensures Frontrunners(most, n, fields, rows, Take(listed, n))
  {
    var out := Take(listed, n);
    KeyCount(fields, rows, order);
    assert Keys(fields, out) == Take(order, n);
    LeftOutBehind(most, n, fields, rows, order, listed);
  }

  lemma KeyCount(fields: seq<string>, rows: seq<Row>, order: seq<DedupKey>)
    requires KeysListed(fields, rows, order)
    ensures |order| == |KeySet(fields, rows)|
  {
    forall k ensures k in order <==> k in KeySet(fields, rows) { KeySetHas(fields, rows, k); }
    assert Elements(order) == KeySet(fields, rows);
    DistinctSize(order);
  }

  /** Keys listed after the first `n` do not outrank those. */
  lemma LeftOutBehind(most: bool, n: nat, fields: seq<string>, rows: seq<Row>, order: seq<DedupKey>, listed: seq<Row>)
    requires KeysListed(fields, rows, order) && Keys(fields, listed) == order && Ranked(most, fields, rows, listed)
    ensures NoneOutranked(most, fields, rows, Take(order, n))
  {
    var shown := Take(order, n);
    forall i, k | 0 <= i < |shown| && HasKey(fields, rows, k) && k !in shown
      ensures Ranks(most, Frequency(fields, rows, shown[i]), Frequency(fields, rows, k))
    {
      assert k in order;
      var j :| 0 <= j < |order| && order[j] == k;
      assert j >= |shown| by { assert forall x :: 0 <= x < |shown| ==> shown[x] == order[x]; }
      assert Keys(fields, listed)[i] == KeyOf(fields, listed[i]) && Keys(fields, listed)[j] == KeyOf(fields, listed[j]);
      assert RowRanks(most, fields, rows, listed[i], listed[j]);
    }
  }

  function TopClauses(source: string, w: Option<string>, c: Command): Sql
    requires c.Top? || c.Rare?
  {
    Sql(Items(ItemsOf(CountBy(c.fields))), [source], w, Some(c.fields), Some([SortExpr("count", c.Top?)]),
        Some(if c.Top? then c.n else 10))
  }

  lemma TopSql(source: string, w: Option<string>, c: Command)
    requires c.Top? || c.Rare?
    ensures PplToSql(PplQuery([source], Opt(w, e => Where(e)) + [c])) == Ok(TopClauses(source, w, c))
  {
    assert [c] == [c] + [];
    FindSkips(Opt(w, e => Where(e)), [c]);
    FindSkips([c], []);
  }

  lemma AnswersFrequent(m: Meaning, source: string, w: Option<string>, c: Command, table: seq<Row>, out: seq<Row>)
    requires (c.Top? || c.Rare?) && c.fields != []
    ensures SqlAnswers(m, TopClauses(source, w, c), [table], out) <==>
      Frequent(m, c.fields, c.Top?, if c.Top? then c.n else 10, FilteredBy(m, w, table), out)
  {
    AggregateSql(m, TopClauses(source, w, c), CountBy(c.fields), table, out);
  }

  lemma TopPipe(m: Meaning, w: Option<string>, c: Command, table: seq<Row>, out: seq<Row>)
    requires c.Top? || c.Rare?
    ensures PipeAnswers(m, Opt(w, e => Where(e)) + [c], table, out) <==>
      Frequent(m, c.fields, c.Top?, if c.Top? then c.n else 10, FilteredBy(m, w, table), out)
  {
    var ws, rows := Opt(w, e => Where(e)), FilteredBy(m, w, table);
    assert [c] == [c] + [];
    PipeOne(m, ws, [c], table, out);
    PipeOne(m, [c], [], rows, out);
    assert Does(m, [c][0], rows, out) <==> Frequent(m, c.fields, c.Top?, if c.Top? then c.n else 10, rows, out);
    if w.Some? { assert Does(m, ws[0], table, rows); }
  }

  /** `where`, then `top` or `rare`: the SQL has the pipe's answers, and they are the
      frontrunners among the rows kept. */
  lemma TopAnswers(m: Meaning, source: string, w: Option<string>, c: Command, table: seq<Row>, out: seq<Row>)
    requires (c.Top? || c.Rare?) && c.fields != [] && "count" !in c.fields && Counts(m)
    ensures
      var cs := Opt(w, e => Where(e)) + [c];
      var sql := PplToSql(PplQuery([source], cs));
      && sql.Ok?
      && (SqlAnswers(m, sql.value, [table], out) <==> PipeAnswers(m, cs, table, out))
      && (SqlAnswers(m, sql.value, [table], out) ==>
            Frontrunners(c.Top?, if c.Top? then c.n else 10, c.fields, FilteredBy(m, w, table), out))
  {
    TopSql(source, w, c);
    AnswersFrequent(m, source, w, c, table, out);
    TopPipe(m, w, c, table, out);
    if SqlAnswers(m, TopClauses(source, w, c), [table], out) {
      FrequentMeaning(m, c.fields, c.Top?, if c.Top? then c.n else 10, FilteredBy(m, w, table), out);
    }
  }
}
