/** The semi-join pipeline: the build side's keys are pushed to the probe side as an IN
    filter before the hash join.  For which kinds of join is that invisible? */
module SemiJoin {
  import opened Base
  import opened Values
  import opened Join
  import opened JoinRows

  // ---- Extracting the keys --------------------------------------------------

  /** The non-null values in order of first appearance. */
  function Distinct(vs: seq<ScalarValue>): seq<ScalarValue> {
    if vs == [] then []
    else
      var rest, last := Distinct(vs[..|vs| - 1]), vs[|vs| - 1];
      if last.Null? || last in rest then rest else rest + [last]
  }

  function KeyColumn(key: string, rows: seq<Row>): seq<ScalarValue> { Map(r => Column(r, key), rows) }

  method ExtractJoinKeys(side: Side) returns (r: Outcome<seq<ScalarValue>>)
    ensures r ==
      if side.batches != [] && side.key !in side.columns then Err("join key not found")
      else Ok(Distinct(KeyColumn(side.key, RowsOf(side))))
  {
    var seen: set<ScalarValue> := {};
    var keys: seq<ScalarValue> := [];
    for i := 0 to |side.batches|
      invariant i > 0 ==> side.key in side.columns
      invariant Extracted(side.key, Flatten(side.batches[..i]), keys, seen)
    {
      if side.key !in side.columns {
        return Err("join key not found");
      }
      assert side.batches[..i + 1][..i] == side.batches[..i];
      keys, seen := ExtractFromBatch(side.key, side.batches[i], Flatten(side.batches[..i]), keys, seen);
    }
    assert side.batches[..|side.batches|] == side.batches;
    return Ok(keys);
  }

  /** The inner loop, over the rows of one batch. */
  method ExtractFromBatch(key: string, batch: seq<Row>, ghost before: seq<Row>, keys0: seq<ScalarValue>,
                          seen0: set<ScalarValue>)
    returns (keys: seq<ScalarValue>, seen: set<ScalarValue>)
    requires Extracted(key, before, keys0, seen0)
    ensures Extracted(key, before + batch, keys, seen)
  {
    keys, seen := keys0, seen0;
    assert before + batch[..0] == before;
    for row := 0 to |batch|
      invariant Extracted(key, before + batch[..row], keys, seen)
    {
      var value := Column(batch[row], key);
      ExtractedStep(key, before + batch[..row], batch[row], keys, seen);
      assert before + batch[..row + 1] == (before + batch[..row]) + [batch[row]];
      if value.Null? {
        continue;
      }
      if value !in seen {
        seen := seen + {value};
        keys := keys + [value];
      }
    }
    assert batch[..|batch|] == batch;
  }

  /** What both loops have collected once they have been through `rows`. */
  ghost predicate Extracted(key: string, rows: seq<Row>, keys: seq<ScalarValue>, seen: set<ScalarValue>) {
    keys == Distinct(KeyColumn(key, rows)) && seen == Elements(keys)
  }

  lemma ExtractedStep(key: string, rows: seq<Row>, row: Row, keys: seq<ScalarValue>, seen: set<ScalarValue>)
    requires Extracted(key, rows, keys, seen)
    ensures var v := Column(row, key);
      if v.Null? || v in seen then Extracted(key, rows + [row], keys, seen)
      else Extracted(key, rows + [row], keys + [v], seen + {v})
  {
    DistinctStep(key, rows, row);
  }

  lemma DistinctStep(key: string, rows: seq<Row>, row: Row)
    ensures var v, rest := Column(row, key), Distinct(KeyColumn(key, rows));
      Distinct(KeyColumn(key, rows + [row])) == if v.Null? || v in rest then rest else rest + [v]
  {
    var vs := KeyColumn(key, rows + [row]);
    assert vs[..|vs| - 1] == KeyColumn(key, rows);
  }

  /** The extracted keys are the non-null key values, each once. */
  lemma {:induction false} DistinctMeaning(vs: seq<ScalarValue>)
    ensures forall v :: v in Distinct(vs) <==> v in vs && !v.Null?
    ensures NoDuplicates(Distinct(vs))
  {
    if vs != [] {
      DistinctMeaning(vs[..|vs| - 1]);
      assert vs == vs[..|vs| - 1] + [vs[|vs| - 1]];
    }
  }

  function KeysToInFilter(field: string, keys: seq<ScalarValue>): Option<FilterExpr> {
    if keys == [] then None else Some(In(field, keys))
  }

  // ---- The pipeline ---------------------------------------------------------

  /** A connector that answers a probe query under a given filter. */
  type ProbeConnector = Option<FilterExpr> -> Outcome<seq<seq<Row>>>

  function PushedProbeFilter(build: Side, probeKey: string, filter: Option<FilterExpr>): Option<FilterExpr> {
    Conjoin(filter, KeysToInFilter(probeKey, Distinct(KeyColumn(build.key, RowsOf(build)))))
  }

  function SemiJoinSpec(display: ScalarValue -> string, build: Side, probe: Side, filter: Option<FilterExpr>,
                        execute: ProbeConnector, kind: JoinType): Outcome<seq<Joined<Row, Row>>>
  {
    if build.batches == [] then Ok([])
    else if build.key !in build.columns then Err("join key not found")
    else if Distinct(KeyColumn(build.key, RowsOf(build))) == [] then Ok([])
    else
      match execute(PushedProbeFilter(build, probe.key, filter))
      case Err(e) => Err(e)
      case Ok(batches) => HashJoinSpec(display, build, probe.(batches := batches), kind)
  }

  /** `probe.batches` is ignored: the probe side is whatever the connector returns. */
  method ExecuteSemiJoin(display: ScalarValue -> string, build: Side, probe: Side, filter: Option<FilterExpr>,
                         execute: ProbeConnector, kind: JoinType)
    returns (r: Outcome<seq<Joined<Row, Row>>>)
    requires |RowsOf(build)| <= U32_ROWS
    requires forall f :: execute(f).Ok? ==> |Flatten(execute(f).value)| <= U32_ROWS
    ensures r == SemiJoinSpec(display, build, probe, filter, execute, kind)
  {
    if build.batches == [] {
      return Ok([]);
    }
    var extracted := ExtractJoinKeys(build);
    if extracted.Err? {
      return Err(extracted.reason);
    }
    if extracted.value == [] {
      return Ok([]);
    }
    var inFilter := KeysToInFilter(probe.key, extracted.value);
    var augmented := match (filter, inFilter)
      case (Some(existing), Some(f)) => Some(And(existing, f))
      case (None, Some(f)) => Some(f)
      case (Some(existing), None) => Some(existing)
      case (None, None) => None;
    var fetched := execute(augmented);
    if fetched.Err? {
      return Err(fetched.reason);
    }
    r := HashJoin(display, build, probe.(batches := fetched.value), kind);
  }

  // ---- Joins over a thinned probe side --------------------------------------

  /** Only probe rows without a match may be dropped. */
  ghost predicate KeepsMatches<B, P>(m: (B, P) -> bool, bs: seq<B>, ps: seq<P>, keep: P -> bool) {
    forall i :: 0 <= i < |ps| && HasMatch(m, bs, ps[i]) ==> keep(ps[i])
  }

  lemma {:induction false} InnerThinned<B, P>(m: (B, P) -> bool, bs: seq<B>, ps: seq<P>, keep: P -> bool)
    requires KeepsMatches(m, bs, ps, keep)
    ensures LoopJoin(m, bs, Filter(keep, ps), false) == LoopJoin(m, bs, ps, false)
  {
    if ps != [] {
      var front, last := ps[..|ps| - 1], ps[|ps| - 1];
      InnerThinned(m, bs, front, keep);
      if keep(last) {
        var kept := Filter(keep, front);
        assert (kept + [last])[..|kept|] == kept;
      }
    }
  }

  /** How many rows a left join has: its inner rows and one per unmatched probe row. */
  lemma {:induction false} LeftThinned<B, P>(m: (B, P) -> bool, bs: seq<B>, ps: seq<P>, keep: P -> bool)
    requires KeepsMatches(m, bs, ps, keep)
    ensures |LoopJoin(m, bs, ps, true)| == |LoopJoin(m, bs, Filter(keep, ps), true)| + |ps| - |Filter(keep, ps)|
  {
    if ps != [] {
      var front, last := ps[..|ps| - 1], ps[|ps| - 1];
      LeftThinned(m, bs, front, keep);
      if keep(last) {
        var kept := Filter(keep, front);
        assert (kept + [last])[..|kept|] == kept;
      }
    }
  }

  lemma {:induction false} AntiThinned<B, P>(m: (B, P) -> bool, bs: seq<B>, ps: seq<P>, keep: P -> bool)
    requires KeepsMatches(m, bs, ps, keep)
    ensures |MatchedRows(m, bs, ps, false)| == |MatchedRows(m, bs, Filter(keep, ps), false)| + |ps| - |Filter(keep, ps)|
  {
    if ps != [] {
      var front, last := ps[..|ps| - 1], ps[|ps| - 1];
      AntiThinned(m, bs, front, keep);
      if keep(last) {
        var kept := Filter(keep, front);
        assert (kept + [last])[..|kept|] == kept;
      }
    }
  }

  lemma MemberHasMatch<B, P>(m: (B, P) -> bool, bs: seq<B>, b: nat, p: P)
    requires b < |bs| && m(bs[b], p)
    ensures HasMatch(m, bs, p)
  {
    FilterMember(Hit(m, p), bs, bs[b]);
  }

  /** Seen from the build side, the dropped rows never mattered. */
  lemma BuildSideThinned<B, P>(m: (B, P) -> bool, bs: seq<B>, ps: seq<P>, keep: P -> bool, b: nat)
    requires KeepsMatches(m, bs, ps, keep) && b < |bs|
    ensures MatchesOf(Swapped(m), Filter(keep, ps), bs[b]) == MatchesOf(Swapped(m), ps, bs[b])
  {
    var hit := Hit(Swapped(m), bs[b]);
    forall i | 0 <= i < |ps| && hit(ps[i]) ensures keep(ps[i]) {
      MemberHasMatch(m, bs, b, ps[i]);
    }
    FilterImplied(keep, hit, ps);
  }

  lemma {:induction false} RightThinned<B, P>(m: (B, P) -> bool, bs: seq<B>, ps: seq<P>, keep: P -> bool, n: nat)
    requires KeepsMatches(m, bs, ps, keep) && n <= |bs|
    ensures LoopJoin(Swapped(m), Filter(keep, ps), bs[..n], true) == LoopJoin(Swapped(m), ps, bs[..n], true)
    ensures MatchedRows(Swapped(m), Filter(keep, ps), bs[..n], false) == MatchedRows(Swapped(m), ps, bs[..n], false)
  {
    if n > 0 {
      RightThinned(m, bs, ps, keep, n - 1);
      BuildSideThinned(m, bs, ps, keep, n - 1);
      assert bs[..n] == bs[..n - 1] + [bs[n - 1]];
      SameMatchesSnoc(Swapped(m), Filter(keep, ps), ps, bs[..n - 1], bs[n - 1]);
    }
  }

  lemma SameMatchesSnoc<B, P>(m: (B, P) -> bool, as_: seq<B>, bs: seq<B>, ps: seq<P>, p: P)
    requires MatchesOf(m, as_, p) == MatchesOf(m, bs, p)
    requires LoopJoin(m, as_, ps, true) == LoopJoin(m, bs, ps, true)
    requires MatchedRows(m, as_, ps, false) == MatchedRows(m, bs, ps, false)
    ensures LoopJoin(m, as_, ps + [p], true) == LoopJoin(m, bs, ps + [p], true)
    ensures MatchedRows(m, as_, ps + [p], false) == MatchedRows(m, bs, ps + [p], false)
  {
    JoinSnoc(m, as_, ps, p);
    JoinSnoc(m, bs, ps, p);
  }

  lemma JoinSnoc<B, P>(m: (B, P) -> bool, bs: seq<B>, ps: seq<P>, p: P)
    ensures LoopJoin(m, bs, ps + [p], true) == LoopJoin(m, bs, ps, true) + RowJoin(m, bs, p, true)
    ensures MatchedRows(m, bs, ps + [p], false) ==
      if HasMatch(m, bs, p) then MatchedRows(m, bs, ps, false) else MatchedRows(m, bs, ps, false) + [p]
  {
    assert (ps + [p])[..|ps|] == ps;
    FilterSnoc(IsMatched(m, bs, false), ps, p);
  }

  /** Which joins a thinned probe side leaves as they were: inner, semi and right always,
      the others exactly when nothing was dropped. */
  lemma JoinThinned<T>(kind: JoinType, m: (T, T) -> bool, bs: seq<T>, ps: seq<T>, keep: T -> bool)
    requires KeepsMatches(m, bs, ps, keep)
    ensures
      JoinOf(kind, m, bs, Filter(keep, ps)) == JoinOf(kind, m, bs, ps) <==>
      kind.Inner? || kind.Semi? || kind.Right? || Filter(keep, ps) == ps
  {
    match kind
    case Inner => InnerThinned(m, bs, ps, keep);
    case Semi => FilterImplied(keep, IsMatched(m, bs, true), ps);
    case Right =>
      RightThinned(m, bs, ps, keep, |bs|);
      assert bs[..|bs|] == bs;
    case Left =>
      LeftThinned(m, bs, ps, keep);
      FilterAll(keep, ps);
    case Anti =>
      AntiThinned(m, bs, ps, keep);
      FilterAll(keep, ps);
    case Full =>
      LeftThinned(m, bs, ps, keep);
      FilterAll(keep, ps);
      RightThinned(m, bs, ps, keep, |bs|);
      assert bs[..|bs|] == bs;
  }

  // ---- The pipeline against the plain join ----------------------------------

  /** The plan without the pushdown: fetch the probe side as asked, then join. */
  function PlainJoin(display: ScalarValue -> string, build: Side, probe: Side, filter: Option<FilterExpr>,
                     execute: ProbeConnector, kind: JoinType): Outcome<seq<Joined<Row, Row>>>
  {
    match execute(filter)
    case Err(e) => Err(e)
    case Ok(batches) => HashJoinSpec(display, build, probe.(batches := batches), kind)
  }

  /** The connector, given the IN filter, thins its rows by some test that spares every
      row whose key is in the list. */
  ghost predicate Spares(key: string, keys: seq<ScalarValue>, all: seq<Row>, thinned: seq<Row>, keep: Row -> bool) {
    && thinned == Filter(keep, all)
    && forall i :: 0 <= i < |all| && In3(Column(all[i], key), keys).True? ==> keep(all[i])
  }

  /** Keys that display alike are equal, as they are within one type. */
  ghost predicate DisplayFaithful(display: ScalarValue -> string, buildKey: string, probeKey: string,
                                  bs: seq<Row>, ps: seq<Row>) {
    forall i, j :: 0 <= i < |bs| && 0 <= j < |ps| && Meets(display, buildKey, probeKey)(bs[i], ps[j]) ==>
      Holds(Eq, Column(ps[j], probeKey), Column(bs[i], buildKey), None).True?
  }

  /** A connector and data on which the pushdown is meant to work. */
  ghost predicate Pushable(display: ScalarValue -> string, build: Side, probe: Side, filter: Option<FilterExpr>,
                           execute: ProbeConnector, keep: Row -> bool) {
    var pushed := PushedProbeFilter(build, probe.key, filter);
    var keys := Distinct(KeyColumn(build.key, RowsOf(build)));
    && build.batches != [] && build.key in build.columns && probe.key in probe.columns
    && execute(filter).Ok? && execute(pushed).Ok?
    && Spares(probe.key, keys, Flatten(execute(filter).value), Flatten(execute(pushed).value), keep)
    && DisplayFaithful(display, build.key, probe.key, RowsOf(build), Flatten(execute(filter).value))
  }

  /** A probe row with a match passes the IN filter. */
  lemma MatchPassesIn(display: ScalarValue -> string, buildKey: string, probeKey: string, bs: seq<Row>, ps: seq<Row>,
                      j: nat)
    requires j < |ps| && DisplayFaithful(display, buildKey, probeKey, bs, ps)
    requires HasMatch(Meets(display, buildKey, probeKey), bs, ps[j])
    ensures In3(Column(ps[j], probeKey), Distinct(KeyColumn(buildKey, bs))).True?
  {
    var m := Meets(display, buildKey, probeKey);
    var found := MatchesOf(m, bs, ps[j]);
    FilterMember(Hit(m, ps[j]), bs, found[0]);
    var i :| 0 <= i < |bs| && bs[i] == found[0];
    var v, keys := Column(bs[i], buildKey), Distinct(KeyColumn(buildKey, bs));
    assert KeyColumn(buildKey, bs)[i] == v;
    DistinctMeaning(KeyColumn(buildKey, bs));
    var k :| 0 <= k < |keys| && keys[k] == v;
    In3Member(Column(ps[j], probeKey), keys);
  }

  lemma NoKeysNoMatch(display: ScalarValue -> string, buildKey: string, probeKey: string, bs: seq<Row>, p: Row)
    requires Distinct(KeyColumn(buildKey, bs)) == []
    ensures !HasMatch(Meets(display, buildKey, probeKey), bs, p)
  {
    var m := Meets(display, buildKey, probeKey);
    var found := MatchesOf(m, bs, p);
    if found != [] {
      FilterMember(Hit(m, p), bs, found[0]);
      var i :| 0 <= i < |bs| && bs[i] == found[0];
      DistinctMeaning(KeyColumn(buildKey, bs));
    }
  }

  lemma PushableKeepsMatches(display: ScalarValue -> string, build: Side, probe: Side, filter: Option<FilterExpr>,
                             execute: ProbeConnector, keep: Row -> bool)
    requires Pushable(display, build, probe, filter, execute, keep)
    ensures KeepsMatches(Meets(display, build.key, probe.key), RowsOf(build), Flatten(execute(filter).value), keep)
  {
    var bs, ps := RowsOf(build), Flatten(execute(filter).value);
    forall j | 0 <= j < |ps| && HasMatch(Meets(display, build.key, probe.key), bs, ps[j]) ensures keep(ps[j]) {
      MatchPassesIn(display, build.key, probe.key, bs, ps, j);
    }
  }

  lemma {:induction false} NoMatchNoRows<B, P>(m: (B, P) -> bool, bs: seq<B>, ps: seq<P>)
    requires forall i :: 0 <= i < |ps| ==> !HasMatch(m, bs, ps[i])
    ensures LoopJoin(m, bs, ps, false) == [] && MatchedRows(m, bs, ps, true) == []
  {
    if ps != [] { NoMatchNoRows(m, bs, ps[..|ps| - 1]); }
  }

  /** The pipeline answers what the plan without pushdown answers. */
  predicate Agrees(display: ScalarValue -> string, build: Side, probe: Side, filter: Option<FilterExpr>,
                   execute: ProbeConnector, kind: JoinType) {
    SemiJoinSpec(display, build, probe, filter, execute, kind) ==
    PlainJoin(display, build, probe, filter, execute, kind)
  }

  /** Inner and semi joins: pushing the keys down changes no row and no order, whatever the
      connector does beyond sparing the rows asked for. */
  lemma SemiJoinPreserves(display: ScalarValue -> string, build: Side, probe: Side, filter: Option<FilterExpr>,
                          execute: ProbeConnector, keep: Row -> bool, kind: JoinType)
    requires Pushable(display, build, probe, filter, execute, keep)
    requires kind.Inner? || kind.Semi?
    ensures PlainJoin(display, build, probe, filter, execute, kind).Ok?
    ensures Agrees(display, build, probe, filter, execute, kind)
  {
    var m, bs, ps := Meets(display, build.key, probe.key), RowsOf(build), Flatten(execute(filter).value);
    PushableKeepsMatches(display, build, probe, filter, execute, keep);
    if Distinct(KeyColumn(build.key, bs)) == [] {
      forall j | 0 <= j < |ps| ensures !HasMatch(m, bs, ps[j]) {
        NoKeysNoMatch(display, build.key, probe.key, bs, ps[j]);
      }
      NoMatchNoRows(m, bs, ps);
    } else {
      JoinThinned(kind, m, bs, ps, keep);
      assert JoinOf(kind, m, bs, []) == [];
    }
  }

  /** Whether the pipeline's answer is the plain plan's, for the kinds that keep unmatched
      rows, from the batches of the two fetches: a join stops without rows at an empty list of
      batches, while batches without rows still bring out the unmatched build rows. */
  predicate OuterPreserved(kind: JoinType, all: seq<seq<Row>>, thinned: seq<seq<Row>>) {
    if all == [] then thinned == [] || kind.Left? || kind.Anti?
    else if thinned == [] then (kind.Left? || kind.Anti?) && Flatten(all) == []
    else if kind.Right? then Flatten(all) == [] || Flatten(thinned) != []
    else Flatten(thinned) == Flatten(all)
  }

  /** The other kinds, when there is a key to push: with batches on both sides a left, full or
      anti join is preserved exactly when no probe row was dropped, a right join exactly when
      not all of them were; a fetch without batches preserves a right or full join only if
      the other has none either. */
  lemma OuterJoinPreservedIff(display: ScalarValue -> string, build: Side, probe: Side, filter: Option<FilterExpr>,
                              execute: ProbeConnector, keep: Row -> bool, kind: JoinType)
    requires Pushable(display, build, probe, filter, execute, keep)
    requires Distinct(KeyColumn(build.key, RowsOf(build))) != []
    requires !kind.Inner? && !kind.Semi?
    ensures Agrees(display, build, probe, filter, execute, kind) <==>
      OuterPreserved(kind, execute(filter).value, execute(PushedProbeFilter(build, probe.key, filter)).value)
  {
    var all, thinned := execute(filter).value, execute(PushedProbeFilter(build, probe.key, filter)).value;
    if all == [] || thinned == [] {
      OneFetchEmpty(display, build, probe, filter, execute, keep, kind);
    } else {
      PushableKeepsMatches(display, build, probe, filter, execute, keep);
      assert RowsOf(build) != [];
      BothFetched(display, build, probe, all, thinned, keep, kind);
    }
  }

  lemma BothFetched(display: ScalarValue -> string, build: Side, probe: Side, all: seq<seq<Row>>,
                    thinned: seq<seq<Row>>, keep: Row -> bool, kind: JoinType)
    requires build.batches != [] && build.key in build.columns && probe.key in probe.columns && RowsOf(build) != []
    requires all != [] && thinned != [] && Flatten(thinned) == Filter(keep, Flatten(all))
    requires KeepsMatches(Meets(display, build.key, probe.key), RowsOf(build), Flatten(all), keep)
    requires !kind.Inner? && !kind.Semi?
    ensures
      HashJoinSpec(display, build, probe.(batches := thinned), kind) ==
      HashJoinSpec(display, build, probe.(batches := all), kind) <==>
      OuterPreserved(kind, all, thinned)
  {
    JoinThinned(kind, Meets(display, build.key, probe.key), RowsOf(build), Flatten(all), keep);
  }

  lemma OneFetchEmpty(display: ScalarValue -> string, build: Side, probe: Side, filter: Option<FilterExpr>,
                      execute: ProbeConnector, keep: Row -> bool, kind: JoinType)
    requires Pushable(display, build, probe, filter, execute, keep)
    requires Distinct(KeyColumn(build.key, RowsOf(build))) != []
    requires !kind.Inner? && !kind.Semi?
    requires execute(filter).value == [] || execute(PushedProbeFilter(build, probe.key, filter)).value == []
    ensures Agrees(display, build, probe, filter, execute, kind) <==>
      OuterPreserved(kind, execute(filter).value, execute(PushedProbeFilter(build, probe.key, filter)).value)
  {
    var m, bs, ps := Meets(display, build.key, probe.key), RowsOf(build), Flatten(execute(filter).value);
    assert bs != [];
    NothingMatched(Swapped(m), bs);
    LeftCount(m, bs, ps);
    LeftCount(Swapped(m), ps, bs);
    PushableKeepsMatches(display, build, probe, filter, execute, keep);
    AntiThinned(m, bs, ps, keep);
  }

  /** With no key at all on the build side the pipeline answers with no rows and asks nothing:
      the plain answer exactly when its fetch succeeds and its join has no rows either. */
  predicate NoKeysPreserved(kind: JoinType, build: Side, fetched: Outcome<seq<seq<Row>>>) {
    && fetched.Ok?
    && (fetched.value == [] ||
        match kind
        case Inner => true
        case Semi => true
        case Right => RowsOf(build) == []
        case Full => RowsOf(build) == [] && Flatten(fetched.value) == []
        case _ => Flatten(fetched.value) == [])
  }

  lemma NoKeysIff(display: ScalarValue -> string, build: Side, probe: Side, filter: Option<FilterExpr>,
                  execute: ProbeConnector, kind: JoinType)
    requires build.batches != [] && build.key in build.columns && probe.key in probe.columns
    requires Distinct(KeyColumn(build.key, RowsOf(build))) == []
    ensures Agrees(display, build, probe, filter, execute, kind) <==> NoKeysPreserved(kind, build, execute(filter))
  {
    if execute(filter).Ok? && execute(filter).value != [] {
      var ps := Flatten(execute(filter).value);
      forall j | 0 <= j < |ps| ensures !HasMatch(Meets(display, build.key, probe.key), RowsOf(build), ps[j]) {
        NoKeysNoMatch(display, build.key, probe.key, RowsOf(build), ps[j]);
      }
      NoMatchEmptyIff(display, build, probe.(batches := execute(filter).value), kind);
    }
  }

  /** When a join in which nothing matches has no rows. */
  lemma NoMatchEmptyIff(display: ScalarValue -> string, build: Side, probe: Side, kind: JoinType)
    requires build.batches != [] && probe.batches != []
    requires build.key in build.columns && probe.key in probe.columns
    requires forall j :: 0 <= j < |RowsOf(probe)| ==>
      !HasMatch(Meets(display, build.key, probe.key), RowsOf(build), RowsOf(probe)[j])
    ensures HashJoinSpec(display, build, probe, kind) == Ok([]) <==> NoKeysPreserved(kind, build, Ok(probe.batches))
  {
    NoMatchJoin(kind, Meets(display, build.key, probe.key), RowsOf(build), RowsOf(probe));
  }

  lemma NoMatchJoin<T>(kind: JoinType, m: (T, T) -> bool, bs: seq<T>, ps: seq<T>)
    requires forall j :: 0 <= j < |ps| ==> !HasMatch(m, bs, ps[j])
    ensures JoinOf(kind, m, bs, ps) == [] <==>
      match kind
      case Inner => true
      case Semi => true
      case Right => bs == []
      case Full => bs == [] && ps == []
      case _ => ps == []
  {
    NoMatchNoRows(m, bs, ps);
    LeftCount(m, bs, ps);
    LeftCount(Swapped(m), ps, bs);
    PartitionCount(m, bs, ps);
    NothingMatched(Swapped(m), bs);
  }

  /** A left join has at least a row per probe row. */
  lemma {:induction false} LeftCount<B, P>(m: (B, P) -> bool, bs: seq<B>, ps: seq<P>)
    ensures |LoopJoin(m, bs, ps, true)| >= |ps|
  {
    if ps != [] { LeftCount(m, bs, ps[..|ps| - 1]); }
  }

  lemma {:induction false} PartitionCount<B, P>(m: (B, P) -> bool, bs: seq<B>, ps: seq<P>)
    ensures |MatchedRows(m, bs, ps, true)| + |MatchedRows(m, bs, ps, false)| == |ps|
  {
    if ps != [] { PartitionCount(m, bs, ps[..|ps| - 1]); }
  }

  lemma {:induction false} NothingMatched<B, P>(m: (B, P) -> bool, ps: seq<P>)
    ensures MatchedRows(m, [], ps, false) == ps
  {
    if ps != [] {
      NothingMatched(m, ps[..|ps| - 1]);
      assert ps == ps[..|ps| - 1] + [ps[|ps| - 1]];
    }
  }
}
