/** The hash join on key columns, as index pairs: a table from key to build rows is
    filled, then probed row by row.  A null key matches nothing. */
module Join {
  import opened Base

  datatype JoinType = Inner | Left | Right | Full | Semi | Anti

  /** The displayed value of a key column on one row; nothing when it is null. */
  type Key = Option<string>

  datatype Pair = Pair(build: Option<nat>, probe: Option<nat>)

  /** Row indices are 32-bit. */
  const U32_ROWS: nat := 0x1_0000_0000

  // ---- The nested-loop reference --------------------------------------------

  /** The build rows a probe key meets, in build order. */
  function Matches(build: seq<Key>, key: Key): seq<nat> {
    if build == [] then []
    else
      var rest, last := Matches(build[..|build| - 1], key), build[|build| - 1];
      if key.Some? && last == key then rest + [|build| - 1] else rest
  }

  function PairsWith(bs: seq<nat>, p: nat): (r: seq<Pair>)
    ensures |r| == |bs|
    ensures forall i :: 0 <= i < |bs| ==> r[i] == Pair(Some(bs[i]), Some(p))
  {
    Map(b => Pair(Some(b), Some(p)), bs)
  }

  /** What one probe row contributes: its matches, or a null-extended row if asked for. */
  function RowPairs(build: seq<Key>, key: Key, p: nat, keepUnmatched: bool): seq<Pair> {
    var bs := Matches(build, key);
    if bs == [] && keepUnmatched then [Pair(None, Some(p))] else PairsWith(bs, p)
  }

  function LoopPairs(build: seq<Key>, probe: seq<Key>, keepUnmatched: bool): seq<Pair> {
    if probe == [] then []
    else
      var p := |probe| - 1;
      LoopPairs(build, probe[..p], keepUnmatched) + RowPairs(build, probe[p], p, keepUnmatched)
  }

  function InnerPairs(build: seq<Key>, probe: seq<Key>): seq<Pair> { LoopPairs(build, probe, false) }

  function LeftPairs(build: seq<Key>, probe: seq<Key>): seq<Pair> { LoopPairs(build, probe, true) }

  /** The probe rows with a match (or, for `matched == false`, without one), in order. */
  function ProbeRows(build: seq<Key>, probe: seq<Key>, matched: bool): seq<nat> {
    if probe == [] then []
    else
      var p := |probe| - 1;
      var rest := ProbeRows(build, probe[..p], matched);
      if (Matches(build, probe[p]) != []) == matched then rest + [p] else rest
  }

  /** The build rows below `n` that no probe row meets, in order. */
  function Unmatched(build: seq<Key>, probe: seq<Key>, n: nat): seq<nat>
    requires n <= |build|
  {
    if n == 0 then []
    else
      var rest := Unmatched(build, probe, n - 1);
      if Met(build, probe, n - 1) then rest else rest + [n - 1]
  }

  predicate Met(build: seq<Key>, probe: seq<Key>, b: nat)
    requires b < |build|
  {
    exists p :: 0 <= p < |probe| && build[b].Some? && probe[p] == build[b]
  }

  function FullPairs(build: seq<Key>, probe: seq<Key>): seq<Pair> {
    LeftPairs(build, probe) + Map(b => Pair(Some(b), None), Unmatched(build, probe, |build|))
  }

  // ---- The hash join --------------------------------------------------------

  ghost predicate TableOf(table: map<string, seq<nat>>, build: seq<Key>) {
    forall k ::
      && (k in table <==> Matches(build, Some(k)) != [])
      && (k in table ==> table[k] == Matches(build, Some(k)))
  }

  method BuildTable(build: seq<Key>) returns (table: map<string, seq<nat>>)
    ensures TableOf(table, build)
  {
    table := map[];
    for row := 0 to |build|
      invariant TableOf(table, build[..row])
    {
      assert build[..row + 1][..row] == build[..row];
      if build[row].None? {
        continue;
      }
      var key := build[row].value;
      var rows := if key in table then table[key] else [];
      table := table[key := rows + [row]];
    }
    assert build[..|build|] == build;
  }

  function Zip(bs: seq<Option<nat>>, ps: seq<Option<nat>>): (r: seq<Pair>)
    requires |bs| == |ps|
    ensures |r| == |bs|
    ensures forall i :: 0 <= i < |bs| ==> r[i] == Pair(bs[i], ps[i])
  {
    seq(|bs|, i requires 0 <= i < |bs| => Pair(bs[i], ps[i]))
  }

  function Somes(rows: seq<nat>): seq<Option<nat>> { Map(p => Some(p), rows) }

  /** What the two index vectors must hold for each kind of join. */
  ghost predicate Joins(kind: JoinType, build: seq<Key>, probe: seq<Key>,
                        bs: seq<Option<nat>>, ps: seq<Option<nat>>) {
    match kind
    case Inner => |bs| == |ps| && Zip(bs, ps) == InnerPairs(build, probe)
    case Left => |bs| == |ps| && Zip(bs, ps) == LeftPairs(build, probe)
    case Full => |bs| == |ps| && Zip(bs, ps) == FullPairs(build, probe)
    case Right => |bs| == |ps| && Zip(bs, ps) == LeftPairs(probe, build)
    case Semi => ps == Somes(ProbeRows(build, probe, true))
    case Anti => ps == Somes(ProbeRows(build, probe, false))
  }

  predicate KeepsUnmatched(kind: JoinType) { kind.Left? || kind.Full? }

  /** The state of the probe loop after the probe rows in `probe`. */
  ghost predicate ProbedSoFar(kind: JoinType, build: seq<Key>, probe: seq<Key>,
                              bs: seq<Option<nat>>, ps: seq<Option<nat>>) {
    match kind
    case Semi => ps == Somes(ProbeRows(build, probe, true))
    case Anti => ps == Somes(ProbeRows(build, probe, false))
    case _ => |bs| == |ps| && Zip(bs, ps) == LoopPairs(build, probe, KeepsUnmatched(kind))
  }

  /** Fills the build and probe index vectors.  A right join is a left join with the
      sides swapped, so its vectors come out swapped too. */
  method HashJoinIndices(build: seq<Key>, probe: seq<Key>, kind: JoinType)
    returns (bs: seq<Option<nat>>, ps: seq<Option<nat>>)
    requires |build| <= U32_ROWS && |probe| <= U32_ROWS
    ensures Joins(kind, build, probe, bs, ps)
    decreases kind.Right?
  {
    if kind.Right? {
      bs, ps := HashJoinIndices(probe, build, Left);
      return;
    }
    var table := BuildTable(build);
    var matched := new bool[|build|](_ => false);
    bs, ps := ProbeAll(build, probe, kind, table, matched);
    if kind.Full? {
      bs, ps := EmitUnmatched(build, probe, bs, ps, matched);
    }
  }

  /** The probe loop. */
  method ProbeAll(ghost build: seq<Key>, probe: seq<Key>, kind: JoinType, table: map<string, seq<nat>>,
                  matched: array<bool>)
    returns (bs: seq<Option<nat>>, ps: seq<Option<nat>>)
    requires !kind.Right? && TableOf(table, build) && matched.Length == |build|
    requires forall b :: 0 <= b < |build| ==> !matched[b]
    modifies matched
    ensures ProbedSoFar(kind, build, probe, bs, ps)
    ensures TracksMatches(kind) ==> forall b :: 0 <= b < |build| ==> matched[b] == Met(build, probe, b)
  {
    bs, ps := [], [];
    for p := 0 to |probe|
      invariant ProbedSoFar(kind, build, probe[..p], bs, ps)
      invariant TracksMatches(kind) ==> forall b :: 0 <= b < |build| ==> matched[b] == Met(build, probe[..p], b)
    {
      ProbedStep(kind, build, probe[..p], probe[p], bs, ps);
      MetStep(build, probe[..p], probe[p]);
      assert probe[..p + 1] == probe[..p] + [probe[p]];
      bs, ps := ProbeRow(kind, build, table, probe[p], p, bs, ps, matched);
    }
    assert probe[..|probe|] == probe;
  }

  predicate TracksMatches(kind: JoinType) { !kind.Semi? && !kind.Anti? }

  /** One more probe row: what has to be appended for the loop to stay on course. */
  lemma ProbedStep(kind: JoinType, build: seq<Key>, probe: seq<Key>, key: Key, bs: seq<Option<nat>>,
                   ps: seq<Option<nat>>)
    requires ProbedSoFar(kind, build, probe, bs, ps) && !kind.Right?
    ensures !TracksMatches(kind) ==>
      forall bs2, ps2 :: ps2 == ps + (if (Matches(build, key) != []) == kind.Semi? then [Some(|probe|)] else []) ==>
        ProbedSoFar(kind, build, probe + [key], bs2, ps2)
    ensures TracksMatches(kind) ==> |bs| == |ps| && forall bs2, ps2 ::
      |bs2| == |ps2| && Zip(bs2, ps2) == Zip(bs, ps) + RowPairs(build, key, |probe|, KeepsUnmatched(kind)) ==>
        ProbedSoFar(kind, build, probe + [key], bs2, ps2)
  {
    assert (probe + [key])[..|probe|] == probe;
  }

  lemma MetStep(build: seq<Key>, probe: seq<Key>, key: Key)
    ensures forall b :: 0 <= b < |build| ==>
      (Met(build, probe + [key], b) <==> Met(build, probe, b) || b in Matches(build, key))
  {
    MatchesMember(build, key);
    forall b | 0 <= b < |build|
      ensures Met(build, probe + [key], b) <==> Met(build, probe, b) || b in Matches(build, key)
    {
      var longer := probe + [key];
      assert forall p :: 0 <= p < |probe| ==> longer[p] == probe[p];
      assert longer[|probe|] == key;
    }
  }

  /** One turn of the probe loop. */
  method ProbeRow(kind: JoinType, ghost build: seq<Key>, table: map<string, seq<nat>>, key: Key, p: nat,
                  bs0: seq<Option<nat>>, ps0: seq<Option<nat>>, matched: array<bool>)
    returns (bs: seq<Option<nat>>, ps: seq<Option<nat>>)
    requires !kind.Right? && TableOf(table, build) && matched.Length == |build|
    requires kind.Semi? || kind.Anti? || |bs0| == |ps0|
    modifies matched
    ensures kind.Semi? || kind.Anti? ==>
      ps == ps0 + if (Matches(build, key) != []) == kind.Semi? then [Some(p)] else []
    ensures !kind.Semi? && !kind.Anti? ==>
      && |bs| == |ps| && Zip(bs, ps) == Zip(bs0, ps0) + RowPairs(build, key, p, KeepsUnmatched(kind))
      && forall b :: 0 <= b < |build| ==> matched[b] == (old(matched[b]) || b in Matches(build, key))
  {
    MatchesMember(build, key);
    bs, ps := bs0, ps0;
    if key.None? {
      if kind.Left? || kind.Anti? || kind.Full? {
        bs, ps := bs + [None], ps + [Some(p)];
      }
      return;
    }
    if key.value in table {
      var rows := table[key.value];
      assert forall i :: 0 <= i < |rows| ==> rows[i] in rows;
      if kind.Semi? {
        ps := ps + [Some(p)];
      } else if !kind.Anti? {
        bs, ps := EmitMatches(rows, p, bs, ps, matched);
      }
    } else if kind.Left? || kind.Anti? || kind.Full? {
      bs, ps := bs + [None], ps + [Some(p)];
    }
  }

  method EmitMatches(rows: seq<nat>, p: nat, bs0: seq<Option<nat>>, ps0: seq<Option<nat>>, matched: array<bool>)
    returns (bs: seq<Option<nat>>, ps: seq<Option<nat>>)
    requires |bs0| == |ps0| && forall i :: 0 <= i < |rows| ==> rows[i] < matched.Length
    modifies matched
    ensures |bs| == |ps| && Zip(bs, ps) == Zip(bs0, ps0) + PairsWith(rows, p)
    ensures forall b :: 0 <= b < matched.Length ==> matched[b] == (old(matched[b]) || b in rows)
  {
    bs, ps := bs0, ps0;
    for i := 0 to |rows|
      invariant |bs| == |ps| && Zip(bs, ps) == Zip(bs0, ps0) + PairsWith(rows[..i], p)
      invariant forall b :: 0 <= b < matched.Length ==> matched[b] == (old(matched[b]) || b in rows[..i])
    {
      bs, ps := bs + [Some(rows[i])], ps + [Some(p)];
      matched[rows[i]] := true;
      assert rows[..i + 1] == rows[..i] + [rows[i]];
    }
    assert rows[..|rows|] == rows;
  }

  method EmitUnmatched(build: seq<Key>, probe: seq<Key>, bs0: seq<Option<nat>>, ps0: seq<Option<nat>>,
                       matched: array<bool>)
    returns (bs: seq<Option<nat>>, ps: seq<Option<nat>>)
    requires |bs0| == |ps0| && matched.Length == |build|
    requires forall b :: 0 <= b < |build| ==> matched[b] == Met(build, probe, b)
    ensures |bs| == |ps|
    ensures Zip(bs, ps) == Zip(bs0, ps0) + Map(b => Pair(Some(b), None), Unmatched(build, probe, |build|))
  {
    bs, ps := bs0, ps0;
    ghost var f := (b: nat) => Pair(Some(b), None);
    for row := 0 to matched.Length
      invariant |bs| == |ps| && Zip(bs, ps) == Zip(bs0, ps0) + Map(f, Unmatched(build, probe, row))
    {
      if !matched[row] {
        bs, ps := bs + [Some(row)], ps + [None];
      }
    }
  }

  // ---- What the reference means ---------------------------------------------

  predicate Increasing(s: seq<nat>) {
    forall i, j :: 0 <= i < j < |s| ==> s[i] < s[j]
  }

  lemma {:induction false} MatchesMember(build: seq<Key>, key: Key)
    ensures forall b :: b in Matches(build, key) <==> 0 <= b < |build| && key.Some? && build[b] == key
    ensures Increasing(Matches(build, key))
    ensures key.None? ==> Matches(build, key) == []
  {
    if build != [] {
      var rest := Matches(build[..|build| - 1], key);
      MatchesMember(build[..|build| - 1], key);
      assert forall i :: 0 <= i < |rest| ==> rest[i] in rest;
    }
  }

  predicate Match(build: seq<Key>, probe: seq<Key>, b: nat, p: nat) {
    b < |build| && p < |probe| && build[b].Some? && build[b] == probe[p]
  }

  /** Probe-major order. */
  predicate Before(x: Pair, y: Pair) {
    x.probe.Some? && y.probe.Some? &&
    (x.probe.value < y.probe.value ||
     (x.probe.value == y.probe.value && x.build.Some? && y.build.Some? && x.build.value < y.build.value))
  }

  predicate InOrder(s: seq<Pair>) {
    forall i, j :: 0 <= i < j < |s| ==> Before(s[i], s[j])
  }

  /** The pairs of a probe row: membership and order. */
  lemma RowPairsMeaning(build: seq<Key>, key: Key, p: nat, keep: bool)
    ensures forall x ::
      x in RowPairs(build, key, p, keep) <==>
        x.probe == Some(p) &&
        if x.build.Some? then x.build.value < |build| && key.Some? && build[x.build.value] == key
        else keep && Matches(build, key) == []
    ensures InOrder(RowPairs(build, key, p, keep))
  {
    MatchesMember(build, key);
    var bs, r := Matches(build, key), RowPairs(build, key, p, keep);
    forall x: Pair | x.probe == Some(p) && x.build.Some? && x.build.value in bs ensures x in r {
      var i :| 0 <= i < |bs| && bs[i] == x.build.value;
      assert r[i] == x;
    }
    forall i | 0 <= i < |bs| ensures bs[i] in bs {}
  }

  /** The nested loop lists, in probe-major order and once each, exactly the matching pairs
      and, when unmatched rows are kept, one null-extended pair per probe row without a match. */
  lemma {:induction false} LoopPairsMeaning(build: seq<Key>, probe: seq<Key>, keep: bool)
    ensures forall x ::
      x in LoopPairs(build, probe, keep) <==>
        x.probe.Some? && x.probe.value < |probe| &&
        if x.build.Some? then Match(build, probe, x.build.value, x.probe.value)
        else keep && Matches(build, probe[x.probe.value]) == []
    ensures InOrder(LoopPairs(build, probe, keep))
  {
    if probe != [] {
      var p := |probe| - 1;
      LoopPairsMeaning(build, probe[..p], keep);
      RowPairsMeaning(build, probe[p], p, keep);
      var rest, last := LoopPairs(build, probe[..p], keep), RowPairs(build, probe[p], p, keep);
      assert forall i :: 0 <= i < |rest| ==> rest[i] in rest;
      assert forall i :: 0 <= i < |last| ==> last[i] in last;
    }
  }

  lemma {:induction false} ProbeRowsMeaning(build: seq<Key>, probe: seq<Key>, matched: bool)
    ensures forall p ::
      p in ProbeRows(build, probe, matched) <==> 0 <= p < |probe| && (Matches(build, probe[p]) != []) == matched
    ensures Increasing(ProbeRows(build, probe, matched))
  {
    if probe != [] {
      var rest := ProbeRows(build, probe[..|probe| - 1], matched);
      ProbeRowsMeaning(build, probe[..|probe| - 1], matched);
      assert forall i :: 0 <= i < |rest| ==> rest[i] in rest;
    }
  }

  lemma {:induction false} UnmatchedMeaning(build: seq<Key>, probe: seq<Key>, n: nat)
    requires n <= |build|
    ensures forall b :: b in Unmatched(build, probe, n) <==> 0 <= b < n && !Met(build, probe, b)
    ensures Increasing(Unmatched(build, probe, n))
  {
    if n > 0 {
      var rest := Unmatched(build, probe, n - 1);
      UnmatchedMeaning(build, probe, n - 1);
      assert forall i :: 0 <= i < |rest| ==> rest[i] in rest;
    }
  }

  // ---- Algebra of the join kinds --------------------------------------------

  /** Two duplicate-free sequences with the same elements are permutations of each other. */
  lemma SameElements<T(!new)>(s: seq<T>, t: seq<T>)
    requires NoDuplicates(s) && NoDuplicates(t) && forall x :: x in s <==> x in t
    ensures multiset(s) == multiset(t)
  {
    forall x | x in multiset(s) || x in multiset(t) ensures multiset(s)[x] == multiset(t)[x] {
      Once(s, x);
      Once(t, x);
    }
  }

  function NullBuild(rows: seq<nat>): seq<Pair> { Map(p => Pair(None, Some(p)), rows) }

  function NullProbe(rows: seq<nat>): seq<Pair> { Map(b => Pair(Some(b), None), rows) }

  function Transpose(pairs: seq<Pair>): seq<Pair> { Map((x: Pair) => Pair(x.probe, x.build), pairs) }

  lemma InOrderNoDuplicates(s: seq<Pair>)
    requires InOrder(s)
    ensures NoDuplicates(s)
  {
    forall i, j | 0 <= i < j < |s| ensures s[i] != s[j] {
      assert Before(s[i], s[j]);
    }
  }

  lemma NullBuildMember(rows: seq<nat>)
    requires Increasing(rows)
    ensures forall x :: x in NullBuild(rows) <==> x.build.None? && x.probe.Some? && x.probe.value in rows
    ensures NoDuplicates(NullBuild(rows))
  {
    var r := NullBuild(rows);
    forall x: Pair | x.build.None? && x.probe.Some? && x.probe.value in rows ensures x in r {
      var i :| 0 <= i < |rows| && rows[i] == x.probe.value;
      assert r[i] == x;
    }
  }

  lemma TransposeMember(pairs: seq<Pair>)
    requires NoDuplicates(pairs)
    ensures forall x :: x in Transpose(pairs) <==> Pair(x.probe, x.build) in pairs
    ensures NoDuplicates(Transpose(pairs))
  {
    var t := Transpose(pairs);
    forall x: Pair | Pair(x.probe, x.build) in pairs ensures x in t {
      var i :| 0 <= i < |pairs| && pairs[i] == Pair(x.probe, x.build);
      assert t[i] == x;
    }
    forall i, j | 0 <= i < j < |t| ensures t[i] != t[j] {
      assert pairs[i] != pairs[j];
    }
  }

  lemma AppendNoDuplicates<T>(s: seq<T>, t: seq<T>)
    requires NoDuplicates(s) && NoDuplicates(t) && forall x :: x in s ==> x !in t
    ensures NoDuplicates(s + t)
  {
    forall i, j | 0 <= i < j < |s + t| ensures (s + t)[i] != (s + t)[j] {
      if i < |s| <= j { assert s[i] in s && t[j - |s|] in t; }
    }
  }

  /** A left join is the inner join and the anti join's rows, null-extended. */
  lemma LeftIsInnerPlusAnti(build: seq<Key>, probe: seq<Key>)
    ensures
      multiset(LeftPairs(build, probe)) ==
      multiset(InnerPairs(build, probe) + NullBuild(ProbeRows(build, probe, false)))
  {
    var inner, anti := InnerPairs(build, probe), ProbeRows(build, probe, false);
    LoopPairsMeaning(build, probe, true);
    LoopPairsMeaning(build, probe, false);
    ProbeRowsMeaning(build, probe, false);
    NullBuildMember(anti);
    InOrderNoDuplicates(LeftPairs(build, probe));
    InOrderNoDuplicates(inner);
    AppendNoDuplicates(inner, NullBuild(anti));
    SameElements(LeftPairs(build, probe), inner + NullBuild(anti));
  }

  /** A build row is unmatched exactly when no inner pair uses it, and is listed once. */
  lemma UnmatchedIsUnused(build: seq<Key>, probe: seq<Key>)
    ensures forall b :: 0 <= b < |build| ==>
      (b in Unmatched(build, probe, |build|) <==> forall x :: x in InnerPairs(build, probe) ==> x.build != Some(b))
    ensures Increasing(Unmatched(build, probe, |build|))
  {
    UnmatchedMeaning(build, probe, |build|);
    LoopPairsMeaning(build, probe, false);
    forall b | 0 <= b < |build| && Met(build, probe, b)
      ensures exists x :: x in InnerPairs(build, probe) && x.build == Some(b)
    {
      var p :| 0 <= p < |probe| && build[b].Some? && probe[p] == build[b];
      assert Pair(Some(b), Some(p)) in InnerPairs(build, probe);
    }
  }

  /** A full join is the left join and one null-extended pair per unused build row. */
  lemma FullIsLeftPlusUnused(build: seq<Key>, probe: seq<Key>)
    ensures FullPairs(build, probe) == LeftPairs(build, probe) + NullProbe(Unmatched(build, probe, |build|))
    ensures NoDuplicates(FullPairs(build, probe))
    ensures forall b :: 0 <= b < |build| ==>
      (Pair(Some(b), None) in FullPairs(build, probe) <==>
       forall x :: x in InnerPairs(build, probe) ==> x.build != Some(b))
  {
    var left, rows := LeftPairs(build, probe), Unmatched(build, probe, |build|);
    UnmatchedIsUnused(build, probe);
    LoopPairsMeaning(build, probe, true);
    InOrderNoDuplicates(left);
    var extra := NullProbe(rows);
    AppendNoDuplicates(left, extra);
    forall b | 0 <= b < |build| ensures Pair(Some(b), None) in FullPairs(build, probe) <==> b in rows {
      if b in rows {
        var i :| 0 <= i < |rows| && rows[i] == b;
        assert FullPairs(build, probe)[|left| + i] == Pair(Some(b), None);
      }
    }
  }

  /** A right join, run with the sides swapped, is the inner join transposed back plus the
      same unused build rows, up to order. */
  lemma RightIsInnerPlusUnused(build: seq<Key>, probe: seq<Key>)
    ensures
      multiset(LeftPairs(probe, build)) ==
      multiset(Transpose(InnerPairs(build, probe)) + NullBuild(Unmatched(build, probe, |build|)))
  {
    var inner, rows := InnerPairs(build, probe), Unmatched(build, probe, |build|);
    LoopPairsMeaning(build, probe, false);
    LoopPairsMeaning(probe, build, true);
    UnmatchedMeaning(build, probe, |build|);
    InOrderNoDuplicates(inner);
    InOrderNoDuplicates(LeftPairs(probe, build));
    TransposeMember(inner);
    NullBuildMember(rows);
    AppendNoDuplicates(Transpose(inner), NullBuild(rows));
    forall b | 0 <= b < |build| ensures Met(build, probe, b) <==> Matches(probe, build[b]) != [] {
      MatchesMember(probe, build[b]);
      var ms := Matches(probe, build[b]);
      if ms != [] { assert ms[0] in ms; }
    }
    SameElements(LeftPairs(probe, build), Transpose(inner) + NullBuild(rows));
  }

  /** The semi and the anti join share out the probe rows, each in their original order. */
  lemma SemiAntiPartition(build: seq<Key>, probe: seq<Key>)
    ensures forall p :: 0 <= p < |probe| ==>
      (p in ProbeRows(build, probe, true) <==> p !in ProbeRows(build, probe, false))
    ensures forall p :: 0 <= p < |probe| ==>
      (p in ProbeRows(build, probe, true) <==> exists b :: Match(build, probe, b, p))
    ensures Increasing(ProbeRows(build, probe, true)) && Increasing(ProbeRows(build, probe, false))
    ensures |ProbeRows(build, probe, true)| + |ProbeRows(build, probe, false)| == |probe|
  {
    ProbeRowsMeaning(build, probe, true);
    ProbeRowsMeaning(build, probe, false);
    PartitionSizes(build, probe);
    forall p | 0 <= p < |probe| ensures Matches(build, probe[p]) != [] <==> exists b :: Match(build, probe, b, p) {
      MatchesMember(build, probe[p]);
      var ms := Matches(build, probe[p]);
      if ms != [] { assert ms[0] in ms && Match(build, probe, ms[0], p); }
    }
  }

  lemma {:induction false} PartitionSizes(build: seq<Key>, probe: seq<Key>)
    ensures |ProbeRows(build, probe, true)| + |ProbeRows(build, probe, false)| == |probe|
  {
    if probe != [] { PartitionSizes(build, probe[..|probe| - 1]); }
  }
}
