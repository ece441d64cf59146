/** The hash join on rows: batches are concatenated, key columns displayed, index pairs
    computed, and the rows gathered back with nulls for the missing side. */
module JoinRows {
  import opened Base
  import opened Values
  import opened Join

  datatype Joined<+B, +P> = Joined(build: Option<B>, probe: Option<P>)

  // ---- A nested-loop join on rows -------------------------------------------

  /** The test of a build row against a given probe row. */
  function Hit<B, P>(m: (B, P) -> bool, p: P): B -> bool { b => m(b, p) }

  function MatchesOf<B, P>(m: (B, P) -> bool, bs: seq<B>, p: P): seq<B> {
    Filter(Hit(m, p), bs)
  }

  function JoinedWith<B, P>(bs: seq<B>, p: P): seq<Joined<B, P>> {
    Map(b => Joined(Some(b), Some(p)), bs)
  }

  function RowJoin<B, P>(m: (B, P) -> bool, bs: seq<B>, p: P, keep: bool): seq<Joined<B, P>> {
    var found := MatchesOf(m, bs, p);
    if found == [] && keep then [Joined(None, Some(p))] else JoinedWith(found, p)
  }

  /** For each probe row in turn, its matches in build order; with `keep`, also the probe
      rows that have none. */
  function LoopJoin<B, P>(m: (B, P) -> bool, bs: seq<B>, ps: seq<P>, keep: bool): seq<Joined<B, P>> {
    if ps == [] then []
    else LoopJoin(m, bs, ps[..|ps| - 1], keep) + RowJoin(m, bs, ps[|ps| - 1], keep)
  }

  predicate HasMatch<B, P>(m: (B, P) -> bool, bs: seq<B>, p: P) {
    MatchesOf(m, bs, p) != []
  }

  function IsMatched<B, P>(m: (B, P) -> bool, bs: seq<B>, matched: bool): P -> bool {
    p => HasMatch(m, bs, p) == matched
  }

  /** The probe rows with (or without) a match. */
  function MatchedRows<B, P>(m: (B, P) -> bool, bs: seq<B>, ps: seq<P>, matched: bool): seq<P> {
    Filter(IsMatched(m, bs, matched), ps)
  }

  function Swapped<B, P>(m: (B, P) -> bool): (P, B) -> bool { (p, b) => m(b, p) }

  /** The build rows nobody matches. */
  function UnmatchedRows<B, P>(m: (B, P) -> bool, bs: seq<B>, ps: seq<P>): seq<B> {
    MatchedRows(Swapped(m), ps, bs, false)
  }

  /** The rows of a join of each kind, over non-empty lists of batches. */
  function JoinOf<T>(kind: JoinType, m: (T, T) -> bool, bs: seq<T>, ps: seq<T>): seq<Joined<T, T>> {
    match kind
    case Inner => LoopJoin(m, bs, ps, false)
    case Left => LoopJoin(m, bs, ps, true)
    case Right => LoopJoin(Swapped(m), ps, bs, true)
    case Full => LoopJoin(m, bs, ps, true) + Map(b => Joined(Some(b), None), UnmatchedRows(m, bs, ps))
    case Semi => Map(p => Joined(None, Some(p)), MatchedRows(m, bs, ps, true))
    case Anti => Map(p => Joined(None, Some(p)), MatchedRows(m, bs, ps, false))
  }

  // ---- The code -------------------------------------------------------------

  /** One side of a join: the columns its batches share, its key and its batches. */
  datatype Side = Side(columns: seq<string>, key: string, batches: seq<seq<Row>>)

  function RowsOf(side: Side): seq<Row> { Flatten(side.batches) }

  /** `array_value_to_string` on a non-null key. */
  function KeyOf(display: ScalarValue -> string, key: string, row: Row): Key {
    var v := Column(row, key);
    if v.Null? then None else Some(display(v))
  }

  function KeysOf(display: ScalarValue -> string, side: Side): seq<Key> {
    Map(r => KeyOf(display, side.key, r), RowsOf(side))
  }

  /** Two rows join when both keys are present and display alike. */
  function Meets(display: ScalarValue -> string, buildKey: string, probeKey: string): (Row, Row) -> bool {
    (b, p) => KeyOf(display, buildKey, b).Some? && KeyOf(display, buildKey, b) == KeyOf(display, probeKey, p)
  }

  function Pick<T>(rows: seq<T>, i: Option<nat>): Option<T> {
    if i.Some? && i.value < |rows| then Some(rows[i.value]) else None
  }

  /** `take` with index 0 standing in for a missing one, then the missing ones nulled out.
      The placeholder is out of range on an empty side. */
  method GatherWithNulls<T>(rows: seq<T>, indices: seq<Option<nat>>) returns (r: Outcome<seq<Option<T>>>)
    ensures r.Ok? <==> forall i :: 0 <= i < |indices| ==> (if indices[i].Some? then indices[i].value else 0) < |rows|
    ensures r.Ok? ==> r.value == Map(i => Pick(rows, i), indices)
  {
    var taken: seq<Option<T>> := [];
    for i := 0 to |indices|
      invariant forall k :: 0 <= k < i ==> (if indices[k].Some? then indices[k].value else 0) < |rows|
      invariant |taken| == i && forall k :: 0 <= k < i ==> taken[k] == Pick(rows, indices[k])
    {
      var at := if indices[i].Some? then indices[i].value else 0;
      if at >= |rows| {
        return Err("index out of range");
      }
      taken := taken + [if indices[i].Some? then Some(rows[at]) else None];
    }
    return Ok(taken);
  }

  /** Whether the probe side has a column besides its key, which the output leaves out. */
  predicate HasOtherColumns(side: Side) { |side.columns| > 1 }

  /** Exactly when a join of two non-empty lists of batches cannot be assembled. */
  predicate CannotAssemble(kind: JoinType, build: Side, probe: Side) {
    var bs, ps := RowsOf(build), RowsOf(probe);
    match kind
    case Left => bs == [] && ps != []
    case Right => ps == [] && bs != []
    case Full => (bs == [] && ps != []) || (ps == [] && bs != [] && HasOtherColumns(probe))
    case _ => false
  }

  function HashJoinSpec(display: ScalarValue -> string, build: Side, probe: Side, kind: JoinType)
    : Outcome<seq<Joined<Row, Row>>>
  {
    if build.batches == [] || probe.batches == [] then Ok([])
    else if build.key !in build.columns || probe.key !in probe.columns then Err("join key not found")
    else if CannotAssemble(kind, build, probe) then Err("index out of range")
    else Ok(JoinOf(kind, Meets(display, build.key, probe.key), RowsOf(build), RowsOf(probe)))
  }

  method HashJoin(display: ScalarValue -> string, build: Side, probe: Side, kind: JoinType)
    returns (r: Outcome<seq<Joined<Row, Row>>>)
    requires |RowsOf(build)| <= U32_ROWS && |RowsOf(probe)| <= U32_ROWS
    ensures r == HashJoinSpec(display, build, probe, kind)
    decreases kind.Right?
  {
    if kind.Right? {
      r := HashJoin(display, probe, build, Left);
      RightIsSwappedLeft(display, build, probe);
      return;
    }
    if build.batches == [] || probe.batches == [] {
      return Ok([]);
    }
    if build.key !in build.columns || probe.key !in probe.columns {
      return Err("join key not found");
    }
    if kind.Semi? || kind.Anti? {
      var rows := JoinProbeSide(display, build, probe, kind);
      return Ok(rows);
    }
    r := JoinBothSides(display, build, probe, kind);
  }

  /** Semi and anti joins return probe rows only. */
  method JoinProbeSide(display: ScalarValue -> string, build: Side, probe: Side, kind: JoinType)
    returns (rows: seq<Joined<Row, Row>>)
    requires |RowsOf(build)| <= U32_ROWS && |RowsOf(probe)| <= U32_ROWS
    requires kind.Semi? || kind.Anti?
    ensures rows == JoinOf(kind, Meets(display, build.key, probe.key), RowsOf(build), RowsOf(probe))
  {
    var bs, ps := RowsOf(build), RowsOf(probe);
    var _, pi := HashJoinIndices(KeysOf(display, build), KeysOf(display, probe), kind);
    ghost var bk, pk := (r: Row) => KeyOf(display, build.key, r), (r: Row) => KeyOf(display, probe.key, r);
    ProbeRowsPick(Meets(display, build.key, probe.key), bk, pk, bs, ps, kind.Semi?);
    rows := Map(i => Joined(None, Pick(ps, i)), pi);
  }

  /** The other kinds put the columns of both sides together. */
  method JoinBothSides(display: ScalarValue -> string, build: Side, probe: Side, kind: JoinType)
    returns (r: Outcome<seq<Joined<Row, Row>>>)
    requires |RowsOf(build)| <= U32_ROWS && |RowsOf(probe)| <= U32_ROWS
    requires kind.Inner? || kind.Left? || kind.Full?
    ensures r ==
      if CannotAssemble(kind, build, probe) then Err("index out of range")
      else Ok(JoinOf(kind, Meets(display, build.key, probe.key), RowsOf(build), RowsOf(probe)))
  {
    var bs, ps := RowsOf(build), RowsOf(probe);
    var bKeys, pKeys := KeysOf(display, build), KeysOf(display, probe);
    var bi, pi := HashJoinIndices(bKeys, pKeys, kind);
    ghost var bk, pk := (r: Row) => KeyOf(display, build.key, r), (r: Row) => KeyOf(display, probe.key, r);
    assert Zip(bi, pi) == PairsOf(kind, bKeys, pKeys);
    PairsPick(kind, Meets(display, build.key, probe.key), bk, pk, bs, ps);
    PairsRange(kind, bKeys, pKeys);
    StuckPairs(|bs|, |ps|, bi, pi);
    r := Assemble(bs, ps, bi, pi, HasOtherColumns(probe));
  }

  lemma StuckPairs(builds: nat, probes: nat, bi: seq<Option<nat>>, pi: seq<Option<nat>>)
    requires |bi| == |pi|
    ensures Stuck(builds, bi) <==> builds == 0 && exists i :: 0 <= i < |bi| && Zip(bi, pi)[i].build.None?
    ensures Stuck(probes, pi) <==> probes == 0 && exists i :: 0 <= i < |bi| && Zip(bi, pi)[i].probe.None?
  {
    assert forall i :: 0 <= i < |bi| ==> Zip(bi, pi)[i] == Pair(bi[i], pi[i]);
  }

  /** A side cannot be gathered: it is empty and some index is missing. */
  ghost predicate Stuck(rows: nat, indices: seq<Option<nat>>) {
    rows == 0 && exists i :: 0 <= i < |indices| && indices[i].None?
  }

  method Assemble<T>(bs: seq<T>, ps: seq<T>, bi: seq<Option<nat>>, pi: seq<Option<nat>>, hasOtherColumns: bool)
    returns (r: Outcome<seq<Joined<T, T>>>)
    requires |bi| == |pi| && forall i :: 0 <= i < |bi| ==> InRange(Zip(bi, pi)[i], |bs|, |ps|)
    ensures r ==
      if Stuck(|bs|, bi) || (hasOtherColumns && Stuck(|ps|, pi)) then Err("index out of range")
      else Ok(Map(Picker(bs, ps), Zip(bi, pi)))
  {
    assert forall i :: 0 <= i < |bi| ==> Zip(bi, pi)[i] == Pair(bi[i], pi[i]);
    var built := GatherWithNulls(bs, bi);
    if built.Err? {
      return Err("index out of range");
    }
    if hasOtherColumns {
      var probed := GatherWithNulls(ps, pi);
      if probed.Err? {
        return Err("index out of range");
      }
    }
    return Ok(Map(Picker(bs, ps), Zip(bi, pi)));
  }

  predicate InRange(x: Pair, builds: nat, probes: nat) {
    (x.build.Some? ==> x.build.value < builds) && (x.probe.Some? ==> x.probe.value < probes)
  }

  function PickPair<B, P>(bs: seq<B>, ps: seq<P>, x: Pair): Joined<B, P> {
    Joined(Pick(bs, x.build), Pick(ps, x.probe))
  }

  function Picker<B, P>(bs: seq<B>, ps: seq<P>): Pair -> Joined<B, P> { x => PickPair(bs, ps, x) }

  /** The pairs of the kinds that keep both sides. */
  function PairsOf(kind: JoinType, build: seq<Key>, probe: seq<Key>): seq<Pair> {
    match kind
    case Left => LeftPairs(build, probe)
    case Full => FullPairs(build, probe)
    case _ => InnerPairs(build, probe)
  }

  // ---- From index pairs to rows ---------------------------------------------

  ghost predicate KeyMatch<B(!new), P(!new)>(m: (B, P) -> bool, bk: B -> Key, pk: P -> Key) {
    forall b, p :: m(b, p) <==> bk(b).Some? && bk(b) == pk(p)
  }

  lemma {:induction false} MatchesPick<B(!new), P(!new)>(m: (B, P) -> bool, bk: B -> Key, pk: P -> Key, bs: seq<B>,
                                                         p: P)
    requires KeyMatch(m, bk, pk)
    ensures var found := MatchesOf(m, bs, p);
      var rows := Matches(Map(bk, bs), pk(p));
      |rows| == |found| && forall i :: 0 <= i < |rows| ==> Pick(bs, Some(rows[i])) == Some(found[i])
  {
    if bs != [] {
      var n := |bs| - 1;
      MatchesPick(m, bk, pk, bs[..n], p);
      assert Map(bk, bs)[..n] == Map(bk, bs[..n]);
      MatchesMember(Map(bk, bs[..n]), pk(p));
      var rows := Matches(Map(bk, bs[..n]), pk(p));
      forall i | 0 <= i < |rows| ensures Pick(bs, Some(rows[i])) == Pick(bs[..n], Some(rows[i])) {
        assert rows[i] in rows;
      }
    }
  }

  lemma RowPairsPick<B(!new), P(!new)>(m: (B, P) -> bool, bk: B -> Key, pk: P -> Key, bs: seq<B>, ps: seq<P>, n: nat,
                                       keep: bool)
    requires KeyMatch(m, bk, pk) && n < |ps|
    ensures Map(Picker(bs, ps), RowPairs(Map(bk, bs), pk(ps[n]), n, keep)) == RowJoin(m, bs, ps[n], keep)
  {
    MatchesPick(m, bk, pk, bs, ps[n]);
  }

  lemma {:induction false} LoopPick<B(!new), P(!new)>(m: (B, P) -> bool, bk: B -> Key, pk: P -> Key, bs: seq<B>,
                                                      ps: seq<P>, keep: bool)
    requires KeyMatch(m, bk, pk)
    ensures Map(Picker(bs, ps), LoopPairs(Map(bk, bs), Map(pk, ps), keep)) == LoopJoin(m, bs, ps, keep)
  {
    if ps != [] {
      var n := |ps| - 1;
      var bKeys, pKeys := Map(bk, bs), Map(pk, ps[..n]);
      LoopPick(m, bk, pk, bs, ps[..n], keep);
      assert Map(pk, ps)[..n] == pKeys;
      LoopPairsMeaning(bKeys, pKeys, keep);
      var pairs := LoopPairs(bKeys, pKeys, keep);
      PickEarlier(bs, ps, n, pairs);
      RowPairsPick(m, bk, pk, bs, ps, n, keep);
      var last := RowPairs(bKeys, pk(ps[n]), n, keep);
      assert LoopPairs(bKeys, Map(pk, ps), keep) == pairs + last;
      MapAppend(Picker(bs, ps), pairs, last);
    }
  }

  /** Pairs of earlier probe rows pick the same rows from the longer list. */
  lemma PickEarlier<B, P>(bs: seq<B>, ps: seq<P>, n: nat, pairs: seq<Pair>)
    requires n <= |ps| && forall x :: x in pairs ==> InRange(x, |bs|, n)
    ensures Map(Picker(bs, ps), pairs) == Map(Picker(bs, ps[..n]), pairs)
  {
    forall i | 0 <= i < |pairs| ensures PickPair(bs, ps, pairs[i]) == PickPair(bs, ps[..n], pairs[i]) {
      assert pairs[i] in pairs;
    }
  }

  lemma HasMatchIndex<B(!new), P(!new)>(m: (B, P) -> bool, bk: B -> Key, pk: P -> Key, bs: seq<B>, p: P)
    requires KeyMatch(m, bk, pk)
    ensures HasMatch(m, bs, p) <==> Matches(Map(bk, bs), pk(p)) != []
  {
    MatchesPick(m, bk, pk, bs, p);
  }

  lemma {:induction false} ProbeRowsPick<B(!new), P(!new)>(m: (B, P) -> bool, bk: B -> Key, pk: P -> Key, bs: seq<B>,
                                                           ps: seq<P>, matched: bool)
    requires KeyMatch(m, bk, pk)
    ensures var rows := ProbeRows(Map(bk, bs), Map(pk, ps), matched);
      var found := MatchedRows(m, bs, ps, matched);
      |rows| == |found| && forall i :: 0 <= i < |rows| ==> Pick(ps, Some(rows[i])) == Some(found[i])
  {
    if ps != [] {
      var n := |ps| - 1;
      ProbeRowsPick(m, bk, pk, bs, ps[..n], matched);
      assert Map(pk, ps)[..n] == Map(pk, ps[..n]);
      HasMatchIndex(m, bk, pk, bs, ps[n]);
      ProbeRowsMeaning(Map(bk, bs), Map(pk, ps[..n]), matched);
      var rows := ProbeRows(Map(bk, bs), Map(pk, ps[..n]), matched);
      forall i | 0 <= i < |rows| ensures Pick(ps, Some(rows[i])) == Pick(ps[..n], Some(rows[i])) {
        assert rows[i] in rows;
      }
    }
  }

  /** A build row is met by index exactly when it is matched as a row. */
  lemma MetIsMatched<B(!new), P(!new)>(m: (B, P) -> bool, bk: B -> Key, pk: P -> Key, bs: seq<B>, ps: seq<P>, b: nat)
    requires KeyMatch(m, bk, pk) && b < |bs|
    ensures Met(Map(bk, bs), Map(pk, ps), b) <==> HasMatch(Swapped(m), ps, bs[b])
  {
    var found := MatchesOf(Swapped(m), ps, bs[b]);
    var hit := Hit(Swapped(m), bs[b]);
    if found != [] {
      FilterMember(hit, ps, found[0]);
      var i :| 0 <= i < |ps| && ps[i] == found[0];
      assert Map(pk, ps)[i] == Map(bk, bs)[b];
    }
    if Met(Map(bk, bs), Map(pk, ps), b) {
      var i :| 0 <= i < |ps| && bk(bs[b]).Some? && Map(pk, ps)[i] == bk(bs[b]);
      FilterMember(hit, ps, ps[i]);
    }
  }

  lemma {:induction false} UnmatchedPick<B(!new), P(!new)>(m: (B, P) -> bool, bk: B -> Key, pk: P -> Key, bs: seq<B>,
                                                           ps: seq<P>, n: nat)
    requires KeyMatch(m, bk, pk) && n <= |bs|
    ensures var rows := Unmatched(Map(bk, bs), Map(pk, ps), n);
      var found := MatchedRows(Swapped(m), ps, bs[..n], false);
      |rows| == |found| && forall i :: 0 <= i < |rows| ==> Pick(bs, Some(rows[i])) == Some(found[i])
  {
    if n > 0 {
      UnmatchedPick(m, bk, pk, bs, ps, n - 1);
      assert bs[..n][..n - 1] == bs[..n - 1];
      MetIsMatched(m, bk, pk, bs, ps, n - 1);
    }
  }

  /** Gathering the index pairs gives the nested-loop rows. */
  lemma PairsPick<T(!new)>(kind: JoinType, m: (T, T) -> bool, bk: T -> Key, pk: T -> Key, bs: seq<T>, ps: seq<T>)
    requires KeyMatch(m, bk, pk) && (kind.Inner? || kind.Left? || kind.Full?)
    ensures Map(Picker(bs, ps), PairsOf(kind, Map(bk, bs), Map(pk, ps))) == JoinOf(kind, m, bs, ps)
  {
    LoopPick(m, bk, pk, bs, ps, !kind.Inner?);
    if kind.Full? { UnmatchedPairsPick(m, bk, pk, bs, ps); }
  }

  lemma UnmatchedPairsPick<T(!new)>(m: (T, T) -> bool, bk: T -> Key, pk: T -> Key, bs: seq<T>, ps: seq<T>)
    requires KeyMatch(m, bk, pk)
    ensures
      var bKeys, pKeys := Map(bk, bs), Map(pk, ps);
      Map(Picker(bs, ps), FullPairs(bKeys, pKeys)) ==
      Map(Picker(bs, ps), LeftPairs(bKeys, pKeys)) + Map(b => Joined(Some(b), None), UnmatchedRows(m, bs, ps))
  {
    var bKeys, pKeys := Map(bk, bs), Map(pk, ps);
    UnmatchedPick(m, bk, pk, bs, ps, |bs|);
    assert bs[..|bs|] == bs;
    var rows, found := Unmatched(bKeys, pKeys, |bs|), UnmatchedRows(m, bs, ps);
    var extra := Map(b => Pair(Some(b), None), rows);
    assert FullPairs(bKeys, pKeys) == LeftPairs(bKeys, pKeys) + extra;
    assert Map(Picker(bs, ps), extra) == Map(b => Joined(Some(b), None), found);
  }

  /** Every index is in range, and which ones can be missing on an empty side. */
  lemma PairsRange(kind: JoinType, build: seq<Key>, probe: seq<Key>)
    requires kind.Inner? || kind.Left? || kind.Full?
    ensures var pairs := PairsOf(kind, build, probe);
      && (forall i :: 0 <= i < |pairs| ==> InRange(pairs[i], |build|, |probe|))
      && (build == [] ==> (!kind.Inner? && probe != [] <==> exists i :: 0 <= i < |pairs| && pairs[i].build.None?))
      && (probe == [] ==> (kind.Full? && build != [] <==> exists i :: 0 <= i < |pairs| && pairs[i].probe.None?))
  {
    PairsInRange(kind, build, probe);
    if build == [] { PairsWithoutBuild(kind, probe); }
    if probe == [] { PairsWithoutProbe(kind, build); }
  }

  lemma PairsInRange(kind: JoinType, build: seq<Key>, probe: seq<Key>)
    requires kind.Inner? || kind.Left? || kind.Full?
    ensures forall i :: 0 <= i < |PairsOf(kind, build, probe)| ==>
      InRange(PairsOf(kind, build, probe)[i], |build|, |probe|)
  {
    PairsMembers(kind, build, probe);
    var pairs := PairsOf(kind, build, probe);
    assert forall i :: 0 <= i < |pairs| ==> pairs[i] in pairs;
  }

  lemma PairsWithoutBuild(kind: JoinType, probe: seq<Key>)
    requires kind.Inner? || kind.Left? || kind.Full?
    ensures var pairs := PairsOf(kind, [], probe);
      !kind.Inner? && probe != [] <==> exists i :: 0 <= i < |pairs| && pairs[i].build.None?
  {
    PairsMembers(kind, [], probe);
    var pairs := PairsOf(kind, [], probe);
    assert forall i :: 0 <= i < |pairs| ==> pairs[i] in pairs;
    if !kind.Inner? && probe != [] {
      assert Pair(None, Some(0)) in pairs;
    }
  }

  lemma PairsWithoutProbe(kind: JoinType, build: seq<Key>)
    requires kind.Inner? || kind.Left? || kind.Full?
    ensures var pairs := PairsOf(kind, build, []);
      kind.Full? && build != [] <==> exists i :: 0 <= i < |pairs| && pairs[i].probe.None?
  {
    PairsMembers(kind, build, []);
    var pairs := PairsOf(kind, build, []);
    assert forall i :: 0 <= i < |pairs| ==> pairs[i] in pairs;
    if kind.Full? && build != [] {
      assert Pair(Some(0), None) in pairs;
    }
  }

  /** Which pairs there are: those of the loop, and for a full join the unmatched build rows. */
  lemma PairsMembers(kind: JoinType, build: seq<Key>, probe: seq<Key>)
    requires kind.Inner? || kind.Left? || kind.Full?
    ensures forall x :: x in PairsOf(kind, build, probe) <==>
      if x.probe.None? then kind.Full? && x.build.Some? && x.build.value < |build| && !Met(build, probe, x.build.value)
      else
        && x.probe.value < |probe|
        && if x.build.Some? then Match(build, probe, x.build.value, x.probe.value)
           else !kind.Inner? && Matches(build, probe[x.probe.value]) == []
  {
    LoopPairsMeaning(build, probe, !kind.Inner?);
    if kind.Full? {
      UnmatchedMeaning(build, probe, |build|);
      var rows := Unmatched(build, probe, |build|);
      var extra := Map(b => Pair(Some(b), None), rows);
      assert FullPairs(build, probe) == LeftPairs(build, probe) + extra;
      forall x ensures x in extra <==> x.probe.None? && x.build.Some? && x.build.value in rows {
        if x.probe.None? && x.build.Some? && x.build.value in rows {
          var i :| 0 <= i < |rows| && rows[i] == x.build.value;
          assert extra[i] == x;
        }
      }
    }
  }

  // ---- Swapping the sides ---------------------------------------------------

  lemma {:induction false} LoopJoinCongruent<B(!new), P(!new)>(m: (B, P) -> bool, n: (B, P) -> bool, bs: seq<B>,
                                                               ps: seq<P>, keep: bool)
    requires forall b, p :: m(b, p) == n(b, p)
    ensures LoopJoin(m, bs, ps, keep) == LoopJoin(n, bs, ps, keep)
  {
    if ps != [] {
      LoopJoinCongruent(m, n, bs, ps[..|ps| - 1], keep);
      var p := ps[|ps| - 1];
      SameFilter(Hit(m, p), Hit(n, p), bs);
    }
  }

  lemma RightIsSwappedLeft(display: ScalarValue -> string, build: Side, probe: Side)
    ensures HashJoinSpec(display, probe, build, Left) == HashJoinSpec(display, build, probe, Right)
  {
    LoopJoinCongruent(Meets(display, probe.key, build.key), Swapped(Meets(display, build.key, probe.key)),
                      RowsOf(probe), RowsOf(build), true);
  }
}
