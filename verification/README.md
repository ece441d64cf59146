# Fuse: a verified model of federated query processing

Fuse answers one query from many data sources. It rewrites the query, sends a part of it to
every source, and joins, sorts and deduplicates what comes back, with a result cache, request
coalescing and a circuit breaker around execution. This project models those parts in Dafny
and proves what they keep: that a rewritten or faster form means the same as a simple
relational one, what holds in every run of the stateful parts, and, where the code falls short
of a property, the exact condition under which it holds.

Check everything with `dafny verify dfyconfig.toml`.

## Parts

| file | subject |
|---|---|
| `Base.dfy`, `Values.dfy`, `Sorting.dfy`, `RowOrder.dfy`, `Statistics.dfy` | vocabulary: sequences, scalar values and three-valued logic (section 8.12 of SQL-92, ISO/IEC 9075:1992), sorted listings and pages, ORDER BY, sums of squares |
| `SqlTranslate.dfy`, `LikeEscape.dfy`, `SqlSoundness.dfy`, `SqlDerived.dfy` | SQL predicates to pushable filters; when exactly a dropped part loses or adds rows; queries over derived tables |
| `Rewrite.dfy` | pushdown of filter, projection, sort and limit to the sources |
| `Join.dfy`, `JoinRows.dfy`, `SemiJoin.dfy`, `FilterSplit.dfy` | hash join, semi-join pushdown, splitting a filter between the sides |
| `Merger.dfy`, `DedupOrder.dfy`, `DistinctPage.dfy` | sort-based deduplication; what it does to order, to the choice of rows and to pages |
| `Ppl.dfy`, `PplTop.dfy`, `PplOrder.dfy` | piped queries to SQL; pipes out of canonical order |
| `Cache.dfy`, `QueryCache.dfy`, `CacheRun.dfy`, `CacheMiddleware.dfy` | the result cache: specification, class, whole runs, the caching wrapper |
| `InFlight.dfy`, `CircuitBreaker.dfy`, `AlertMonitor.dfy` | state machines over whole runs |
| `Anomaly.dfy`, `Trend.dfy`, `Seasonality.dfy` | window statistics over the reals |
| `Fingerprint.dfy` | the literal-erasing scanner |
| `Security.dfy` | field policies and their effect on results |

Code that updates state is modelled by classes and methods, each proved equal to a
specification function; what the code is for is then proved of those functions. Clocks are
parameters. Connectors, hash and display functions, `sqrt`, sorting and aggregate functions are
parameters with the properties a theorem needs stated in its `requires`. A sort returns any
sorted permutation, and an engine without ORDER BY lists rows in the order of its input.

## Results that name a condition

* A filter sent to a source may drop what it cannot express, and nothing filters again after the
  source: a filter that is too strong loses rows of the answer, one that is too weak adds rows the
  WHERE excludes. Each direction has a polarity condition over whole predicates (`SafeKeeps`,
  `TightMatches`) and exact conditions for the places where something is dropped. A dropped
  conjunct adds nothing exactly when the one that stays implies it (`ConjunctGainsIff`; for
  `a = b AND c = 1` it does not, `ColumnsDroppedGain`), and under NOT loses nothing exactly when
  the one that stays is false wherever it is (`NotAndSoundIff`). Elements dropped from IN lose
  nothing exactly when the literals cover them (`InListSoundIff`, `LiteralListIff`), from NOT IN
  add nothing exactly when the literals refute them (`NotInGainsIff`). A dropped ESCAPE loses
  nothing exactly when the escape character is `%`, quotes nothing, or is `_` and quotes only `%`
  (`EscapeSoundIff`).
* Over derived tables the WHERE of the outer query and of one level below go to the base table as
  they are. That is right for columns that come up under their own names, without LIMIT or
  grouping below (`PushdownReturns`). A predicate on a renamed or computed column loses and adds
  no rows exactly when it is never true or always true (`RenamedIff`), the LIMIT of a derived
  table is ignored (`InnerLimitIff`), and so is a WHERE further down (`DeepWhereIff`).
* A page with an offset needs `limit + offset` rows of every source, and a query without LIMIT
  needs all of them. The query handler pushes the limit without the first step and gives every
  source a limit of 10,000: `OwnLimitExact`, `OffsetForgotten`.
* Semi-join pushdown is right for inner and semi joins, and for the other kinds exactly under
  the condition of `OuterJoinPreservedIff` and `NoKeysIff`.
* A comparison in a join filter is split off to its side harmlessly exactly when its name means
  the same column before and after the join, or no value satisfies it (`ComparisonHarmlessIff`):
  the key column of the probe side is filtered by but is not a column of the output
  (`ProbeKeyHarmlessIff`).
* Everything in a join filter but conjunctions and comparisons (OR, NOT, IN, IS NULL, IS NOT
  NULL) is sent whole to both sides, where the other side's columns read as null. On one side's
  columns that is harmless exactly when the filter is true of nulls or never true
  (`OneSidedHarmlessIff`); a disjunction across the sides becomes a conjunction
  (`DisjunctionHarmlessIff`).
* Deduplication keeps the first occurrence of each key exactly when rows with one key are equal
  (`FirstOccurrenceIff`), and keeps a requested order exactly when ascending keys imply it
  (`OrderSurvivesIff`). Sources cut their rows before duplicates are removed, so no LIMIT they are
  sent is enough for a page of a DISTINCT result (`DistinctAlwaysRightIff`, `DistinctPageIff`).
* Overwriting a cache entry evicts nothing, so runs can leave the byte budget as soon as two
  entries fit: `OverwriteBudget`, `BudgetAlwaysIff`. The cache key leaves out HAVING, OFFSET and
  the passthrough (`TransparentIffIgnoresHidden`), and column lists share a key exactly when they
  have the same pieces between commas (`CommaCollidesIff`).
* Request coalescing needs every execution to be reported once; a second report is harmless
  exactly when no other execution of the key runs: `LateReportIff`.
* Only the first command of each kind in a pipe has an effect, in a fixed order:
  `SecondWhereIff`, `HeadBeforeWhereIff`, `HeadBeforeSortIff`, `StatsBeforeWhereIff`.
* Field policies are looked up for the first batch and applied to the others by position. A batch
  with other fields shows nothing its own fields hide exactly under the condition of
  `OtherSchemaIff`.
* A z-score threshold can be out of reach of a window: `NeverFlagsIff`.

Where code and documentation disagree, the model follows the code. The comment on the half-open
state says one request is let through; the code lets all of them through (`HalfOpenAdmitsAll`).
The comment on `dedup_batches` says the first occurrence is kept; the code keeps whichever row
the sort puts first (`FirstOccurrenceIff`).

## Model

| member | source | states |
|---|---|---|
| SqlTranslate.ExactAgrees | crates/fuse-engine/src/sql_to_subquery.rs:231-398 | when nothing is dropped, the translated filter has the predicate's truth value, in three-valued logic, on every row |
| SqlTranslate.SafeKeeps | crates/fuse-engine/src/sql_to_subquery.rs:231-398 | under positive polarity a dropped part only weakens the filter: rows that make the predicate true make the filter true; under negative polarity the converse for false |
| SqlTranslate.TightMatches | crates/fuse-engine/src/sql_to_subquery.rs:231-398 | the dual: where parts are dropped only in such places, rows that make the filter true make the predicate true; under negative polarity the converse for false |
| SqlDerived.PushedFilterKeeps | crates/fuse-engine/src/sql_to_subquery.rs:90-102 | however deep derived tables nest, a row that survives every WHERE passes the pushed filter, if the filtered columns keep their names |
| SqlDerived.PushedFilterAddsNone | crates/fuse-engine/src/sql_to_subquery.rs:90-102 | and with nothing dropped that weakens it, only such rows pass |
| SqlDerived.DeepWhereIff | crates/fuse-engine/src/sql_to_subquery.rs:90-102 | a WHERE two levels down or more is not sent; no row is added exactly when the filter that is sent implies it |
| SqlDerived.PushdownReturns | crates/fuse-engine/src/planner.rs:163-189 | the rows that come back, which nothing filters again, include the result, are only the result, or are exactly it, with its LIMIT, under the respective conditions |
| SqlDerived.RenamedIff | crates/fuse-engine/src/sql_to_subquery.rs:51-63 | a predicate pushed through a renamed or computed column loses no row, and adds none, exactly when it is never or always true; a comparison only when never |
| SqlDerived.InnerLimitIff | crates/fuse-engine/src/sql_to_subquery.rs:51-75 | with a LIMIT in the derived table the right rows come back exactly when it cuts nothing off, no row it cuts off is wanted, or the outer LIMIT is reached before |
| SqlSoundness.TightGainsNothing | crates/fuse-engine/src/sql_to_subquery.rs:231-398 | predicates of that polarity add no row |
| SqlSoundness.ConjunctGainsIff | crates/fuse-engine/src/sql_to_subquery.rs:339-348 | any untranslatable conjunct on either side of an AND is dropped without adding rows exactly when the conjunct that stays implies it |
| SqlSoundness.ColumnsDroppedGain | crates/fuse-engine/src/sql_to_subquery.rs:339-396 | two columns compared beside a comparison with a literal: the filter is safe and does add rows |
| SqlSoundness.NotInGainsIff | crates/fuse-engine/src/sql_to_subquery.rs:249-262 | a NOT IN list adds no row exactly when the literals refute every dropped element |
| SqlSoundness.InListSoundIff | crates/fuse-engine/src/sql_to_subquery.rs:249-262 | any positive IN list loses no row exactly when the literals that stay cover every element that is dropped |
| SqlSoundness.LiteralListIff | crates/fuse-engine/src/sql_to_subquery.rs:249-262 | over literals, columns, functions and uninterpreted elements: exactly when every element is a literal |
| SqlTranslate.InListAgrees | crates/fuse-engine/src/sql_to_subquery.rs:249-262 | literal IN lists agree exactly; with elements dropped, NOT IN only weakens and IN only strengthens |
| SqlTranslate.InListDrop | crates/fuse-engine/src/sql_to_subquery.rs:252-258 | a value the full list rules out is ruled out by its literals |
| SqlTranslate.InListTight | crates/fuse-engine/src/sql_to_subquery.rs:249-262 | with elements dropped a true IN is a true predicate, and a false NOT IN a false one |
| SqlSoundness.NotAndSoundIff | crates/fuse-engine/src/sql_to_subquery.rs:339-348 | any untranslatable conjunct dropped under NOT is harmless exactly when the other one is false wherever the dropped one is |
| SqlSoundness.EscapeSoundIff | crates/fuse-engine/src/sql_to_subquery.rs:263-281 | a LIKE or ILIKE loses no row to its dropped ESCAPE exactly when the escape character is `%`, quotes nothing, or is `_` and quotes only `%` |
| LikeEscape.EscapeDropIff | crates/fuse-engine/src/sql_to_subquery.rs:263-281 | the same of patterns and texts, for every pattern and escape character |
| SqlSoundness.NotLikeSoundIff | crates/fuse-engine/src/sql_to_subquery.rs:263-300 | a NOT LIKE without `%` in its pattern loses no row to its dropped ESCAPE exactly when the clause quotes nothing |
| LikeEscape.FixedDropIff | crates/fuse-engine/src/sql_to_subquery.rs:263-300 | the same of patterns and texts |
| SqlTranslate.LikeKeeps | crates/fuse-engine/src/sql_to_subquery.rs:263-300 | a harmless lost ESCAPE only widens LIKE and only narrows NOT LIKE |
| SqlTranslate.LikeTight | crates/fuse-engine/src/sql_to_subquery.rs:263-300 | and then adds no row to NOT LIKE |
| SqlTranslate.FlipHolds | crates/fuse-engine/src/sql_to_subquery.rs:379-394 | swapping the operands and flipping the operator keeps the truth value |
| SqlTranslate.ComparisonAgrees | crates/fuse-engine/src/sql_to_subquery.rs:359-396 | a translated comparison, either way round, means what the SQL comparison means |
| SqlTranslate.BetweenAgrees | crates/fuse-engine/src/sql_to_subquery.rs:302-328 | BETWEEN and NOT BETWEEN as two bounds, nulls included |
| SqlTranslate.LikeAgrees | crates/fuse-engine/src/sql_to_subquery.rs:263-300 | LIKE and ILIKE agree whenever the ESCAPE clause quotes nothing |
| SqlTranslate.NullTestAgrees | crates/fuse-engine/src/sql_to_subquery.rs:241-248 | IS NULL and IS NOT NULL agree |
| SqlTranslate.ScalarInRange | crates/fuse-engine/src/sql_to_subquery.rs:400-433 | integer literals, negated or not, stay within the 64-bit range |
| Sorting.PageAgrees | crates/fuse-engine/src/merger.rs:134-186 | merging sorted prefixes of length offset + limit gives the page of the whole, up to ties |
| Sorting.UnsortedPageAgrees | crates/fuse-engine/src/merger.rs:114-146 | the same for unsorted unions, row for row |
| Sorting.AlwaysRightIff | crates/fuse-engine/src/rewrite.rs:85-95 | sources asked for n rows (or all) give the right page for all data exactly when n is unlimited, reaches the page's end, or no row is wanted |
| Sorting.AlwaysSameRowsIff | crates/fuse-engine/src/rewrite.rs:85-95 | without an order, the same condition for the very rows of the page |
| RowOrder.RowLeqTotalPreorder | crates/fuse-engine/src/merger.rs:151-186 | the ORDER BY comparison is a total preorder |
| RowOrder.ProjectKeepsOrder | crates/fuse-engine/src/merger.rs:164-176 | a projection that keeps the sort fields keeps the order |
| Rewrite.PushDownToSources | crates/fuse-engine/src/rewrite.rs:19-49 | rewrites every sub-query in place as the specification says |
| Rewrite.Optimize | crates/fuse-engine/src/rewrite.rs:66-95 | applies both rules to one sub-query and leaves the others alone |
| Rewrite.TopNPushdown | crates/fuse-engine/src/rewrite.rs:19-95 | the federated page has the sort keys of the page of the whole union |
| Rewrite.TopNTotalOrder | crates/fuse-engine/src/rewrite.rs:19-95 | under a total order it is that very page |
| Rewrite.UnionAllPushdown | crates/fuse-engine/src/rewrite.rs:19-95 | without ORDER BY the federation returns the rows of the union, in order |
| Rewrite.OwnLimitExact | crates/fuse-engine/src/rewrite.rs:33-39 | a source's own limit leaves every page right, in sort keys or without ORDER BY row for row, exactly when it reaches the page's end, or no row is wanted; without LIMIT exactly when there is none |
| Rewrite.OffsetForgotten | crates/fuse-server/src/api.rs:1715-1730 | pushing without the limit merge is right exactly when no row is wanted, or the own limit has room and there is no offset or no LIMIT |
| Join.BuildTable | crates/fuse-engine/src/join.rs:195-204 | the table lists, per key, exactly the build rows with it, in order |
| Join.HashJoinIndices | crates/fuse-engine/src/join.rs:161-264 | the index vectors equal, in order, those of a probe-major nested loop in which null matches nothing, for all six kinds |
| Join.ProbeRow | crates/fuse-engine/src/join.rs:212-254 | one probe row appends exactly its pairs and marks exactly its matches |
| Join.EmitUnmatched | crates/fuse-engine/src/join.rs:256-264 | appends one null-extended pair per unmatched build row |
| Join.LoopPairsMeaning | crates/fuse-engine/src/join.rs:206-254 | the loop lists, once each and in order, exactly the matching pairs and the unmatched probe rows to keep |
| Join.LeftIsInnerPlusAnti | crates/fuse-engine/src/join.rs:212-278 | a left join is the inner join plus the null-extended anti join |
| Join.UnmatchedIsUnused | crates/fuse-engine/src/join.rs:256-264 | a build row is unmatched exactly when no inner pair uses it |
| Join.FullIsLeftPlusUnused | crates/fuse-engine/src/join.rs:212-264 | a full join is the left join plus one row per unused build row, without duplicates |
| Join.RightIsInnerPlusUnused | crates/fuse-engine/src/join.rs:168-177 | a right join is the transposed inner join plus the unused build rows, up to order |
| Join.SemiAntiPartition | crates/fuse-engine/src/join.rs:266-278 | semi and anti join partition the probe rows, each in original order |
| JoinRows.GatherWithNulls | crates/fuse-engine/src/join.rs:400-413 | gathers rows with nulls for missing indices; fails exactly when an index or its placeholder is out of range |
| JoinRows.HashJoin | crates/fuse-engine/src/join.rs:161-310 | the joined rows are the nested-loop join on matching keys; empty batch lists, missing key columns and empty sides as the code treats them |
| JoinRows.PairsPick | crates/fuse-engine/src/join.rs:280-309 | gathering the index pairs gives the nested-loop rows |
| JoinRows.PairsRange | crates/fuse-engine/src/join.rs:400-413 | all indices are in range, and which kinds have a missing index over an empty side |
| JoinRows.RightIsSwappedLeft | crates/fuse-engine/src/join.rs:168-177 | a right join is the left join with the sides swapped |
| SemiJoin.ExtractJoinKeys | crates/fuse-engine/src/join.rs:119-143 | the distinct non-null key values in order of appearance, or an error for a missing column |
| SemiJoin.DistinctMeaning | crates/fuse-engine/src/join.rs:119-143 | those are exactly the non-null values, each once |
| SemiJoin.ExecuteSemiJoin | crates/fuse-engine/src/join.rs:318-371 | extract, push the IN filter, fetch, join, with the early exits of the code |
| SemiJoin.SemiJoinPreserves | crates/fuse-engine/src/join.rs:318-371 | for inner and semi joins the pipeline returns the row sequence of the plain join |
| SemiJoin.OuterJoinPreservedIff | crates/fuse-engine/src/join.rs:318-371 | for the other kinds: exactly when no probe row (right join: not every probe row) was dropped; with an empty list of batches, exactly in the listed cases |
| SemiJoin.NoKeysIff | crates/fuse-engine/src/join.rs:333-341 | with no key to push the empty answer is right exactly when the plain fetch succeeds and has no batches, or its join has no rows |
| SemiJoin.JoinThinned | crates/fuse-engine/src/join.rs:146-154 | dropping unmatched probe rows keeps a join exactly for inner, semi and right, or if none was dropped |
| SemiJoin.MatchPassesIn | crates/fuse-engine/src/join.rs:146-154 | a probe row with a match passes the IN filter |
| FilterSplit.SplitConjoins | crates/fuse-engine/src/rewrite.rs:99-137 | on every filter and row, both halves are true exactly when the whole is |
| FilterSplit.ComparisonHarmlessIff | crates/fuse-engine/src/rewrite.rs:124-134 | any comparison is split harmlessly exactly when its name means the same column before and after the join, or no value satisfies it |
| FilterSplit.ProbeKeyHarmlessIff | crates/fuse-engine/src/join.rs:299-302 | so a comparison on the probe key, which the output does not have, is harmless exactly when no value satisfies it |
| FilterSplit.SplitOnSides | crates/fuse-engine/src/rewrite.rs:99-137 | for a conjunction of such comparisons, each half on its own side says what the whole says of the joined row |
| FilterSplit.SplitBeforeJoin | crates/fuse-engine/src/rewrite.rs:99-137 | filtering both sides before an inner join equals filtering its output, in order |
| FilterSplit.SplitBeforeHashJoin | crates/fuse-engine/src/join.rs:161-310 | the same of the inner hash join, its early exit and its error |
| FilterSplit.HarmlessIffJoins | crates/fuse-engine/src/rewrite.rs:99-137 | a split is right for every pair of rows exactly when it is right for every inner join |
| FilterSplit.OneSidedHarmlessIff | crates/fuse-engine/src/rewrite.rs:135 | a filter on one side's columns sent to both is harmless exactly when it is true of nulls or never true |
| FilterSplit.DisjunctionHarmlessIff | crates/fuse-engine/src/rewrite.rs:135 | a disjunction across the sides is harmless exactly in the listed cases; of two predicates nulls do not satisfy, only if neither is ever true |
| Merger.DedupBatches | crates/fuse-engine/src/merger.rs:192-273 | the first row of each run of equal keys after sorting, with the early exits and the missing-column error |
| Merger.MarkRuns | crates/fuse-engine/src/merger.rs:236-255 | marks exactly the rows whose key differs from the row before |
| Merger.DedupRefinesSet | crates/fuse-engine/src/merger.rs:192-273 | output keys strictly increase, are exactly the input keys, and every output row is an input row |
| DedupOrder.DedupForgetsOrder | crates/fuse-server/src/api.rs:1316-1353 | inputs with one key set give outputs with one key sequence, whatever order they come in and however sorts break ties |
| DedupOrder.OrderSurvivesIff | crates/fuse-server/src/api.rs:1316-1353 | an ORDER BY on the DISTINCT columns holds of the output exactly when the ascending order of the keys implies it, for every two input rows |
| DedupOrder.FirstOccurrenceIff | crates/fuse-engine/src/merger.rs:188-273 | every admissible sort keeps the first occurrence of each key exactly when rows with one key are equal |
| DedupOrder.ChosenSurvives | crates/fuse-engine/src/merger.rs:192-273 | for every input row some admissible sort makes that row the survivor of its key |
| DistinctPage.DistinctPageIff | crates/fuse-server/src/api.rs:1340-1366 | the page of the distinct rows fetched is the page of all distinct rows exactly when every distinct row down to the page's end was fetched, or the page is empty |
| DistinctPage.DistinctAlwaysRightIff | crates/fuse-server/src/api.rs:1340-1366 | a page of a DISTINCT result is right for all data exactly when the sources are not cut, or no row is wanted |
| Ppl.CanonicalSql | crates/fuse-engine/src/ppl.rs:123-214 | on a canonical pipeline each SQL clause is the command of its kind |
| Ppl.FindsInOrder | crates/fuse-engine/src/ppl.rs:466-596 | every extractor finds its own command among the others |
| Ppl.CanonicalPreserved | crates/fuse-engine/src/ppl.rs:123-214 | on canonical pipelines the SQL has exactly the answers of running the pipe left to right |
| Ppl.ProjectEarly | crates/fuse-engine/src/ppl.rs:176-211 | projecting in each SELECT or at the end of the pipe gives the same answers when the sort keys are kept |
| Ppl.UnionOfSelects | crates/fuse-engine/src/ppl.rs:185-205 | the UNION ALL of the SELECTs is the SELECT of the union |
| Ppl.GroupsAreStats | crates/fuse-engine/src/ppl.rs:535-568 | selecting the keys and aggregates under the generated GROUP BY gives exactly the groups of the stats command |
| PplOrder.SecondWhereIff | crates/fuse-engine/src/ppl.rs:526-533 | ignoring a second predicate is harmless exactly when it holds of every row the first one keeps |
| PplOrder.HeadBeforeWhereIff | crates/fuse-engine/src/ppl.rs:589-596 | moving a cut behind a predicate is harmless exactly when the first n rows all pass or no later row does |
| PplOrder.HeadBeforeSortIff | crates/fuse-engine/src/ppl.rs:570-596 | moving a cut behind a sort is harmless exactly when there are at most n rows, or no later row may come before one of the first n unless it is the same |
| PplOrder.StatsBeforeWhereIff | crates/fuse-engine/src/ppl.rs:526-568 | moving a predicate before a grouping is harmless exactly when it selects whole groups and leaves their rows unchanged |
| PplTop.TopAnswers | crates/fuse-engine/src/ppl.rs:138-159 | the SQL of `top` and `rare` has the answers of the pipe: distinct keys, exact counts, in rank order, none outranked by a key left out |
| Cache.EvictCountLeast | crates/fuse-engine/src/cache.rs:126-139 | the number of evictions is the least that makes room |
| Cache.RemovedValid | crates/fuse-engine/src/cache.rs:167-201 | removing an entry keeps the invariant and its byte subtraction never saturates |
| Cache.PutValid | crates/fuse-engine/src/cache.rs:192-214 | a put keeps the invariant |
| Cache.GetValid | crates/fuse-engine/src/cache.rs:167-189 | a get keeps the invariant |
| Cache.EvictExpiredValid | crates/fuse-engine/src/cache.rs:217-235 | evicting expired entries keeps the invariant |
| QueryCache.QueryCache.constructor | crates/fuse-engine/src/cache.rs:151-164 | an empty cache with limits of at least one |
| QueryCache.QueryCache.TouchKey | crates/fuse-engine/src/cache.rs:110-113 | moves the key to the recent end |
| QueryCache.QueryCache.EvictOneLru | crates/fuse-engine/src/cache.rs:115-124 | removes the least recently used entry and books it |
| QueryCache.QueryCache.EvictUntilFits | crates/fuse-engine/src/cache.rs:126-139 | the two loops drop exactly the least prefix of the recency order that makes room |
| QueryCache.QueryCache.GetEntry | crates/fuse-engine/src/cache.rs:167-189 | the whole new state and the answer of a get |
| QueryCache.QueryCache.PutEntry | crates/fuse-engine/src/cache.rs:192-214 | the whole new state of a put |
| QueryCache.QueryCache.EvictAllExpired | crates/fuse-engine/src/cache.rs:217-235 | the whole new state, whatever the order of removal, and the number removed |
| QueryCache.QueryCache.ClearAll | crates/fuse-engine/src/cache.rs:238-243 | empties the cache and keeps the counters |
| QueryCache.LoopsDropLeast | crates/fuse-engine/src/cache.rs:126-139 | count loop then byte loop equal dropping the least prefix that fits |
| CacheRun.RunValid | crates/fuse-engine/src/cache.rs:97-243 | in every run the recency list is a duplicate-free listing of the stored keys, the byte count exact, the entry bound kept |
| CacheRun.EntriesAreLatest | crates/fuse-engine/src/cache.rs:167-243 | every stored entry is the latest put of its key |
| CacheRun.HitIsLatestPut | crates/fuse-engine/src/cache.rs:167-189 | every hit returns the latest put, unexpired |
| CacheRun.PutThenGet | crates/fuse-engine/src/cache.rs:167-214 | a put is seen by the next get of its key exactly until it expires |
| CacheRun.GetsAreCounted | crates/fuse-engine/src/cache.rs:167-189 | hits plus misses equal gets, in every run |
| CacheRun.PutsAreConserved | crates/fuse-engine/src/cache.rs:167-243 | new-key puts equal live entries plus evictions plus cleared entries, in every run |
| CacheRun.LruOrder | crates/fuse-engine/src/cache.rs:110-113 | in every run the recency list is in order of last use |
| CacheRun.NewPutFits | crates/fuse-engine/src/cache.rs:192-214 | a new put evicts the shortest prefix that makes room and ends within budget or alone |
| CacheRun.BudgetHolds | crates/fuse-engine/src/cache.rs:192-214 | runs whose overwrites do not grow entries stay within the byte budget |
| CacheRun.OverwriteBudget | crates/fuse-engine/src/cache.rs:196-201 | an overwrite evicts nothing and stays within budget exactly when the replacement itself fits |
| CacheRun.BudgetAlwaysIff | crates/fuse-engine/src/cache.rs:192-214 | every run from the empty cache stays within budget exactly when it has room for one entry only |
| CacheMiddleware.CachingConnector.ExecuteQuery | crates/fuse-engine/src/cache_middleware.rs:85-98 | lookup, fallback, store; errors are not stored |
| CacheMiddleware.TransparentIff | crates/fuse-engine/src/cache_middleware.rs:85-98 | over every shared run the wrapper answers as the connector would exactly when calls with one key have one answer |
| CacheMiddleware.KeyExact | crates/fuse-engine/src/cache_middleware.rs:34-47 | for plain names two calls share a key exactly when they agree on all but HAVING, OFFSET and passthrough |
| CacheMiddleware.TransparentIffIgnoresHidden | crates/fuse-engine/src/cache_middleware.rs:34-98 | the wrapper is transparent exactly for connectors whose answers ignore those three |
| CacheMiddleware.CommaCollidesIff | crates/fuse-engine/src/cache_middleware.rs:39 | queries that differ in their column lists share a key exactly when those have the same pieces between commas |
| InFlight.QueryDedup.CheckQuery | crates/fuse-server/src/dedup.rs:40-49 | joins the running execution or begins one |
| InFlight.QueryDedup.CompleteQuery | crates/fuse-server/src/dedup.rs:52-57 | takes the entry out and delivers the result |
| InFlight.QueryDedup.CancelQuery | crates/fuse-server/src/dedup.rs:60-62 | takes the entry out and closes the channel |
| InFlight.RunTracks | crates/fuse-server/src/dedup.rs:40-62 | in every disciplined interleaving the map holds exactly the running executions |
| InFlight.OneExecutor | crates/fuse-server/src/dedup.rs:40-49 | at most one execution of a key runs at a time |
| InFlight.CheckAnswer | crates/fuse-server/src/dedup.rs:40-49 | a caller executes exactly when no execution of its key runs, and otherwise joins the one that does |
| InFlight.StandingMeaning | crates/fuse-server/src/dedup.rs:52-62 | an execution stands open until its one report, which decides how it stands |
| InFlight.WaiterOutcome | crates/fuse-server/src/dedup.rs:40-62 | a waiter receives what ended the execution it joined, and is pending no longer than that runs |
| InFlight.LateReportIff | crates/fuse-server/src/dedup.rs:52-62 | a second report of an ended execution does nothing exactly when no other execution of its key runs; otherwise that one's waiters get it and its key is free too early |
| CircuitBreaker.CircuitBreaker.AllowRequest | crates/fuse-server/src/circuit_breaker.rs:38-61 | answer and new state of a request |
| CircuitBreaker.CircuitBreaker.Succeeded | crates/fuse-server/src/circuit_breaker.rs:64-71 | closes the breaker and resets the count |
| CircuitBreaker.CircuitBreaker.Failed | crates/fuse-server/src/circuit_breaker.rs:74-87 | counts the failure and opens at the threshold |
| CircuitBreaker.AllowIffNotBlocked | crates/fuse-server/src/circuit_breaker.rs:38-61 | in every run a request is refused exactly when failures since the last success reach the threshold and the latest is within the timeout |
| CircuitBreaker.StateIsRule | crates/fuse-server/src/circuit_breaker.rs:38-96 | the state is a function of the reports and requests; closed exactly below the threshold |
| CircuitBreaker.AskingIsInvisible | crates/fuse-server/src/circuit_breaker.rs:38-61 | earlier requests change no answer |
| CircuitBreaker.HalfOpenAdmitsAll | crates/fuse-server/src/circuit_breaker.rs:9-13 | a half-open breaker admits every request until the next report |
| AlertMonitor.AlertMonitor.AddRule | crates/fuse-server/src/alert_monitor.rs:83-85 | appends the rule |
| AlertMonitor.AlertMonitor.RemoveRule | crates/fuse-server/src/alert_monitor.rs:87-92 | removes all rules of the id and says whether there was one |
| AlertMonitor.AlertMonitor.AcknowledgeAlert | crates/fuse-server/src/alert_monitor.rs:107-115 | marks an active alert and says whether there was one |
| AlertMonitor.AlertMonitor.Evaluate | crates/fuse-server/src/alert_monitor.rs:118-166 | new active map and trimmed history; returns exactly the Firing events appended |
| AlertMonitor.RunTold | crates/fuse-server/src/alert_monitor.rs:83-166 | in every run each id's events alternate Firing and Resolved, and it is active exactly when its last event is Firing |
| AlertMonitor.RulesTold | crates/fuse-server/src/alert_monitor.rs:118-156 | one evaluation keeps that, whatever the rules |
| AlertMonitor.HistoryIsLatest | crates/fuse-server/src/alert_monitor.rs:158-163 | in every run the stored history is the latest 1000 events of the log |
| AlertMonitor.NoRepeatedFiring | crates/fuse-server/src/alert_monitor.rs:129-156 | what follows a Firing event of an id is its own resolution |
| Anomaly.ZScoreBound | crates/fuse-engine/src/anomaly.rs:20-73 | every z-score of a window of w values obeys w z² ≤ (w − 1)² |
| Anomaly.SpikeScore | crates/fuse-engine/src/anomaly.rs:62-73 | the bound is attained |
| Anomaly.NeverFlagsIff | crates/fuse-engine/src/anomaly.rs:76-85 | no series is ever flagged exactly when w < 2, or t ≥ 0 and w t² ≥ (w − 1)² |
| Trend.TrendSlope | crates/fuse-engine/src/anomaly.rs:148-177 | the slope of every full window |
| Trend.SlopeOf | crates/fuse-engine/src/anomaly.rs:159-174 | the two running sums give covariance over spread |
| Trend.DenominatorClosed | crates/fuse-engine/src/anomaly.rs:160-169 | the denominator is w(w² − 1)/12 |
| Trend.DenominatorPositive | crates/fuse-engine/src/anomaly.rs:170-171 | so its zero branch is dead |
| Trend.SlopeOfLine | crates/fuse-engine/src/anomaly.rs:148-177 | the slope of linear data is exact |
| Trend.SlopeIsLeastSquares | crates/fuse-engine/src/anomaly.rs:148-177 | no line has a smaller squared residual than the one with this slope through the means |
| Seasonality.DetectSeasonality | crates/fuse-engine/src/anomaly.rs:195-227 | the first period of maximal correlation at or above the floor, or none |
| Seasonality.CorrelationAt | crates/fuse-engine/src/anomaly.rs:212-217 | the correlation at one period |
| Seasonality.CorrelationBound | crates/fuse-engine/src/anomaly.rs:195-227 | autocorrelation lies between −1 and 1, and is 1 at period 0 |
| Seasonality.PeriodZeroWins | crates/fuse-engine/src/anomaly.rs:195-227 | a search from period 0 finds period 0 |
| Seasonality.FloorOutOfReach | crates/fuse-engine/src/anomaly.rs:195-227 | a floor above 1 is never reached |
| Seasonality.Deseasonalize | crates/fuse-engine/src/anomaly.rs:231-252 | takes the phase mean off every value |
| Seasonality.PhasesCancel | crates/fuse-engine/src/anomaly.rs:231-252 | every phase of the result sums to zero |
| Seasonality.DeseasonalizeIdempotent | crates/fuse-engine/src/anomaly.rs:231-252 | removing the season twice is removing it once |
| Fingerprint.EraseLiterals | crates/fuse-server/src/fingerprint.rs:8-38 | the look-ahead scanner equals a character-by-character automaton |
| Fingerprint.ComputeFingerprint | crates/fuse-server/src/fingerprint.rs:8-42 | erases literals, then normalises whitespace |
| Fingerprint.FingerprintIdempotent | crates/fuse-server/src/fingerprint.rs:8-42 | fingerprinting twice equals once |
| Fingerprint.StringBlindIff | crates/fuse-server/src/fingerprint.rs:8-42 | the text of a quoted literal is erased at a point exactly when an even number of quotes comes before it |
| Fingerprint.InStringIffOdd | crates/fuse-server/src/fingerprint.rs:8-42 | the scanner is inside a string exactly after an odd number of quotes |
| Fingerprint.NumberBlindIff | crates/fuse-server/src/fingerprint.rs:8-42 | the digits of a number are erased at a point exactly when they do not continue a word |
| Security.Evaluate | crates/fuse-core/src/security.rs:80-116 | each field's outcome is the verdict of all applicable policies |
| Security.VerdictUnordered | crates/fuse-core/src/security.rs:80-116 | the verdict is the same under every permutation of the policies |
| Security.FilterResults | crates/fuse-core/src/security.rs:132-185 | filters all batches by the verdicts on the first one's schema |
| Security.FilterBatchOkIff | crates/fuse-core/src/security.rs:132-194 | a batch can be shown exactly when some column is kept and every masked one holds text |
| Security.FilterBatchesOkIff | crates/fuse-core/src/security.rs:132-185 | the same for a list of batches, each filtered on its own |
| Security.FilteredContents | crates/fuse-core/src/security.rs:132-194 | kept columns in order, allowed ones unchanged, masked ones starred but for nulls |
| Security.NonInterference | crates/fuse-core/src/security.rs:132-194 | the output does not depend on denied columns or on the non-null values of masked ones |
| Security.OtherSchemaIff | crates/fuse-core/src/security.rs:143-185 | a batch of another schema, read at the first one's positions, depends on nothing its own fields hide exactly when each position shown is as open in its own schema (or masked without nulls), or no such batch can be shown |
| Security.MixedNonInterference | crates/fuse-core/src/security.rs:132-194 | a list of such batches gives away nothing hidden |
| Security.ResultsUnordered | crates/fuse-core/src/security.rs:80-185 | policy order does not change the results |

## Left out

- Rewrite.TopNPushdown: requires limit + offset to fit 64 bits, since the code saturates there; sources carry no filter, projection, sort or aggregation of their own.
- Join.HashJoinIndices: at most 2^32 rows a side, since the code stores row numbers in 32 bits; what it does beyond is not modelled.
- JoinRows.GatherWithNulls: an index out of range is an error value here; the `take` of the Arrow library panics on it.
- JoinRows.HashJoin: rows are maps by column; the column layout of the output batch and its types are not modelled beyond the renaming of clashing names.
- SemiJoin.SemiJoinPreserves: the probe query has no limit, offset or aggregation, and keys that display alike compare equal (same-typed keys).
- Rewrite.OffsetForgotten: states when the fetched rows suffice; the handler's re-aggregation, cursor and page-size parameters are not modelled.
- DistinctPage.DistinctAlwaysRightIff: without ORDER BY; each dedup column holds one type.
- Security.FilterResults: a column missing from a batch is an error value here; the Arrow library panics on it.
- DedupOrder.OrderSurvivesIff: the ORDER BY is on columns of the DISTINCT, not on the `_datasource` column the handler leaves out of it.
- Ppl.CanonicalPreserved: works on parsed commands and structured clauses; the parser, the rendering to text (grown in loops by the code) and the meaning of predicate texts are not modelled.
- PplOrder.StatsBeforeWhereIff: no aggregate takes the name of a key column.
- PplTop.TopAnswers: one source, and no field named `count`, which would clash with the generated column.
- CacheMiddleware.KeyExact: assumes the 64-bit hash and the debug text are injective; streaming queries, which bypass the cache, are not modelled.
- CircuitBreaker.StateIsRule: the 32-bit failure count is unbounded in the model; a threshold of 0 acts as 1.
- Anomaly.ZScoreBound: floating point is modelled by the reals and `sqrt` by any exact non-negative root; rounding and NaN are left out, as in `Trend` and `Seasonality`.
- Merger.DedupRefinesSet: each dedup column holds one type, as in an Arrow batch.
- SqlSoundness.NotLikeSoundIff: the pattern has no `%`; with one, a clause that quotes nothing is harmless (`SqlTranslate.LikeAgrees`), and whether another is comes down to the inclusion of one pattern's texts in another's.
- SqlDerived.PushdownReturns: speaks of the base rows behind the result; the code hands over base rows and drops the select list, DISTINCT and GROUP BY of a derived table, and of a UNION it reads the first SELECT only.
- SqlTranslate.LikeAgrees: ILIKE compares ASCII letters without case and no others; NaN does not occur.
- PPL `eval`, `rename`, `dedup`, `fields -` and `stats` over several sources: the code handles them textually, drops them or does not combine them, so no meaning is preserved.
- Schema union, type widening and batch alignment in the merger, `prune_projections`, and re-aggregation in the query handler.
- Cost models, plan choice and `plan_join`: heuristic constants.
- Webhooks, alert windows, metrics collection, HTTP handlers, configuration and authentication: input and output.
- `annotate_batch` and `trend_direction`: thin wrappers over what is modelled.
- Locks: the methods of the shared objects are atomic steps, as the locks make them.
