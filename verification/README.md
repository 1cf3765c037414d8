# Greedy build-order scheduler, modelled in Dafny

This project models the scheduler in `data_processing.py`. It orders the
upgrades of a Travian village (every level of every building) by
efficiency, meaning the resources or build time spent per culture point
gained. Lower is better.

The inputs are:

- a flattened cost table with one row per (building, level), giving that
  level's resource total, build time and culture-point increase;
- the (name, level) → row index mapping;
- the prerequisite map;
- a current-level map.

The core pieces are:

- **The dependency resolver `_find_build_order`** (`Resolver`). It works
  out the rows needed to reach a target row: the building's prerequisite
  chains, de-duplicated in first-seen order; then its missing lower levels;
  then the target itself.
- **The effective efficiency of a chain** (`Efficiencies`). It is the
  chain's summed cost divided by its summed culture points, or undefined
  (NaN / NaT in the source) when that sum is zero. This module also holds
  the culture-point delta column.
- **`Group` and `GroupPriorityQueue`** (`Groups`). These are chains ranked
  by efficiency. The queue keeps the union of the buildings its groups
  touch. Its lazy pass `update_priorty_queue` re-resolves the groups that
  touch a changed building and drops those already met.
- **The commit step `_create_build_order_df` and the driver
  `sort_by_efficiency`** (`Scheduler`). The driver walks a stream of
  candidate rows. Each candidate is either skipped (already met), queued
  (it needs a chain of several upgrades), committed on its own (a single
  upgrade that strictly beats the best queued group), or the best group is
  committed first and the candidate is tried again. Groups still queued
  when the stream runs out are not emitted; the model keeps that behaviour.

The files are:

- `cost_table.dfy` holds the table, the configuration and the algebra of
  the level map. `Applied` is the level map after a build order is
  committed. `Legal` says that, for every building, the order holds
  exactly its next levels, in increasing order, with no gap and no
  repetition.
- `resolver.dfy`, `efficiency.dfy` and `groups.dfy` hold the three
  building blocks above.
- `scheduler.dfy` holds the driver in two forms:
  - a pure specification: `Step` for one iteration, `Run` for the whole
    loop, and the invariant `Inv`;
  - the imperative code proved against it: a `LevelState` object, the
    `Commit` loop, and `SortByEfficiency` over a `GroupPriorityQueue`
    object.

The main result is `Scheduler.RunCorrect`. From any covering level map:

- the emitted rows form a legal build order;
- every building's first level in it comes after its prerequisites have
  reached their required levels;
- the final level map is exactly the one that order leads to;
- no level ever drops;
- every candidate row ends up met or still queued as a group's target.

## Model

| member | source | states |
|---|---|---|
| CostTable.NamesMember | data_processing.py:349-353 | a building is in the set of touched names exactly when some row of the order belongs to it, and an untouched building has no levels in the order |
| CostTable.Names | data_processing.py:349-353 | the set of touched buildings is empty exactly when the order is |
| CostTable.Applied | data_processing.py:349-354 | the level update of the commit loop never removes a building from the level map |
| CostTable.AppliedFrame | data_processing.py:349-354 | committing an order leaves every building it does not touch at its old level |
| CostTable.AppliedLegal | data_processing.py:349-354 | committing a legal order keeps the set of buildings and raises each building by the number of its levels in the order |
| CostTable.AppliedGrows | data_processing.py:349-354 | committing a legal order never lowers a level |
| CostTable.AppliedMeets | data_processing.py:349-354 | after a legal order is committed, every row of it is met |
| CostTable.LegalAppend | data_processing.py:342-355 | two legal orders committed one after the other form one legal order, and the level maps compose |
| CostTable.AppliedRaised | data_processing.py:349-354 | committing the same order from higher starting levels ends at levels at least as high |
| CostTable.AppliedSubset | data_processing.py:349-354 | of two legal orders from the same levels, the one holding every row of the other ends at levels at least as high |
| CostTable.PrereqsFirstRaised | data_processing.py:374-385 | an order whose every first level of a building is preceded by its prerequisites keeps that property from higher starting levels |
| CostTable.PrereqsFirstAppend | data_processing.py:342-355 | an order with prerequisites first, followed by another with prerequisites first from the levels the first leads to, has prerequisites first as a whole |
| Resolver.Resolve | data_processing.py:358-391 | the result is a list of table rows; it is empty exactly when the target level is at most the current level; otherwise it ends with the target; for a building at a non-zero level exactly one below the target it is just the target |
| Resolver.MissingLevels | data_processing.py:386-388 | one row for each level from `lo` up to `hi - 1`, and none when `lo >= hi` |
| Resolver.AppendNew | data_processing.py:382-385 | the de-duplicating merge keeps everything collected and adds at most the chain's length |
| Resolver.Merged | data_processing.py:375-385 | the merged chains of the first k declared prerequisites are rows of the table |
| Resolver.Prior | data_processing.py:374-385 | the rows before the building's own levels are table rows, and there are some only when the building is at level 0 and has a prerequisite entry |
| Resolver.Own | data_processing.py:386-390 | the building's own rows end with the target, and for an unmet target there is one per level from current + 1 up to the target level |
| Resolver.MissingLevelsRows | data_processing.py:386-388 | the missing-level rows are the rows of the target building at levels current + 1 up to level - 1, in increasing order |
| Resolver.ResolveShape | data_processing.py:367-391 | an unmet target resolves to the prior part followed by the building's own part; the prior part is the merged prerequisite chains when the building is at level 0 and has a prerequisite entry, and is empty otherwise |
| Resolver.OwnRows | data_processing.py:372-390 | the own part is exactly the levels current + 1 up to the target level of the target building, in increasing order, ending with the target |
| Resolver.MergedStep | data_processing.py:376-385 | the k-th declared prerequisite's chain (resolved from its (name, level) row) is merged after the chains of the first k - 1, so expansion follows declaration order |
| Resolver.AppendNewElements | data_processing.py:382-385 | merging a chain keeps what was collected as a prefix, adds exactly the rows of the chain not yet collected, each once, in the order of their first occurrence in the chain, and adds no row twice |
| Resolver.AppendNewBefore | data_processing.py:382-385 | every row of the chain that precedes a newly added row's first occurrence is already in the result before that row |
| Resolver.AppendNewPrereqs | data_processing.py:375-385 | de-duplicating a legal chain with prerequisites first into a collected legal order with prerequisites first keeps prerequisites first |
| Resolver.OwnPrereqs | data_processing.py:374-390 | after the prior part is committed, the building's own rows have their prerequisites met |
| Resolver.MergedPrereqs | data_processing.py:375-385 | the merged chains of the first k declared prerequisites put every building's prerequisites before its first level |
| Resolver.ResolvePrereqs | data_processing.py:358-391 | in the result, every first level of a building that has a prerequisite entry comes after rows bringing each of its prerequisites to the required level |
| Resolver.ResolveNoDup | data_processing.py:374-391 | no row occurs twice in the result |
| Resolver.ResolveLegal | data_processing.py:358-391 | the result is a legal build order from the current levels |
| Resolver.ResolvePrereqsFirst | data_processing.py:374-385 | committing the prior part, which is a prefix of the result, brings every declared prerequisite of the building to at least its required level before the building's own rows |
| Resolver.ResolveAtLeast | data_processing.py:386-390 | the result brings the target building to at least the target level |
| Resolver.ResolveReaches | data_processing.py:386-390 | for an unmet target, the current level plus the number of the building's levels in the result is exactly the target level |
| Resolver.ResolveMeetsTarget | data_processing.py:358-391 | committing the result meets the target row |
| Efficiencies.LessIrreflexive | data_processing.py:148-149 | no group's efficiency is strictly below its own |
| Efficiencies.LessTransitive | data_processing.py:148-149 | the strict efficiency order is transitive |
| Efficiencies.LessUndefined | data_processing.py:318 | any comparison with an undefined efficiency is false |
| Efficiencies.Less | data_processing.py:148-149 | `Group.__gt__` as a strict order: it holds only between two defined efficiencies |
| Efficiencies.Efficiency | data_processing.py:394-415 | undefined exactly when the culture-point sum is 0; otherwise the value times the culture-point sum equals the cost sum in the chosen column |
| Efficiencies.EffectiveEfficiency | data_processing.py:402-415 | the summing loop returns the efficiency of the chain |
| Efficiencies.EfficiencyEmpty | data_processing.py:412-413 | an empty chain has an undefined efficiency |
| Efficiencies.SumsAppend | data_processing.py:409-411 | `CpSum` and `CostSum`, the two running sums of the loop, each split over a concatenation of chains, so each is the sum over the chain's rows in any grouping |
| Efficiencies.EfficiencySingle | data_processing.py:409-415 | a single row's efficiency is its own cost over its own culture points, or undefined when those are 0 |
| Efficiencies.CpDeltasTelescope | data_processing.py:52-60 | the first k culture-point deltas of a building add up to the culture points of its level k, so the delta column loses nothing |
| Efficiencies.CpDeltas | data_processing.py:52-60 | `add_cp_delta_column` for one building: one delta per level |
| Groups.NewGroup | data_processing.py:131-146 | the group keeps the efficiency and the chain given, and its dependency set is the set of building names in the chain |
| Groups.UnionDepsMember | data_processing.py:224-229 | a name is in the union exactly when some queued group depends on it |
| Groups.UnionDepsDisjoint | data_processing.py:185-190 | the union is disjoint from a set exactly when every group's dependency set is |
| Groups.UnionDeps | data_processing.py:224-229 | the union holds every queued group's dependency set |
| Groups.TopIndex | data_processing.py:168-171 | the position of a queued group that no queued group strictly beats |
| Groups.Best | data_processing.py:168-171 | a member of the queue whose efficiency no member strictly beats |
| Groups.RemoveAt | data_processing.py:208-213 | removing a member leaves one fewer, and the removed group plus the rest is the old queue as a multiset |
| Groups.RemoveAtOk | data_processing.py:208-213 | the remaining groups are the old ones in the same order, still well formed |
| Groups.RefreshOne | data_processing.py:188-204 | a group disjoint from the updated buildings is kept as it is; otherwise it is re-resolved from the last row of its chain and dropped exactly when that row is met; a re-resolved group is well formed and keeps its target |
| Groups.RefreshGroup | data_processing.py:189-204 | the loop body of the pass computes exactly what `RefreshOne` makes of one group |
| Groups.Refreshed | data_processing.py:173-206 | the rebuilt queue of `update_priorty_queue` is never longer than the old one |
| Groups.RefreshedShape | data_processing.py:173-206 | the rebuilt queue is never longer than the old one, is well formed, and holds only targets of old groups |
| Groups.RefreshedNoop | data_processing.py:185-186 | when the union is disjoint from the updated buildings the queue is unchanged |
| Groups.RefreshedKeeps | data_processing.py:190-192 | a group disjoint from the updated buildings survives unchanged |
| Groups.RefreshedSnoc | data_processing.py:188-204 | the pass rebuilds the queue one group at a time in queue order: what the first k + 1 groups give is what the first k give followed by what the (k + 1)-th gives, so surviving groups keep their relative order |
| Groups.RefreshedRenews | data_processing.py:194-204 | a touched group whose target is unmet is replaced by the group re-resolved from its target, with recomputed efficiency and dependency set |
| Groups.RefreshedCovers | data_processing.py:188-204 | every old group's target is met or is still the target of some new group |
| Groups.RefreshedLegal | data_processing.py:173-206 | when only updated buildings changed level, every rebuilt group is a legal build order from the new levels |
| Groups.RefreshedPrereqs | data_processing.py:173-206 | when levels only rose, every rebuilt group still puts prerequisites first from the new levels |
| Groups.GroupPriorityQueue.constructor | data_processing.py:155-166 | the queue holds the dependency set, group list and value type given |
| Groups.GroupPriorityQueue.Len | data_processing.py:231-232 | the number of queued groups; zero exactly when the queue is empty |
| Groups.GroupPriorityQueue.Peek | data_processing.py:168-171 | the efficiency of a queued group that no queued group strictly beats |
| Groups.GroupPriorityQueue.UpdateDependency | data_processing.py:224-229 | the dependency set becomes the union of the groups' dependency sets |
| Groups.GroupPriorityQueue.Push | data_processing.py:215-222 | the group is added and the dependency set is the union again |
| Groups.GroupPriorityQueue.Pop | data_processing.py:208-213 | returns a group no other group strictly beats, removes exactly it, and keeps the dependency set the union |
| Groups.GroupPriorityQueue.UpdatePriorityQueue | data_processing.py:173-206 | the queue becomes the refreshed queue (see the Refreshed lemmas) and the dependency set is the union again |
| Scheduler.AllEmpty | data_processing.py:258-264 | every building of the table at level 0, except the main building at level 1 |
| Scheduler.OnlyCore | data_processing.py:235-255 | the all-empty map with the thirteen non-core buildings at level 100 and nothing else changed |
| Scheduler.Kind | data_processing.py:302-337 | the branch an iteration takes: skip exactly when the candidate is met; queue exactly when it needs several upgrades; commit a single upgrade exactly when the queue is empty or the upgrade's efficiency is strictly below the best group's; otherwise pop the best group |
| Scheduler.AfterCommit | data_processing.py:320-336 | a commit, refresh and emit keeps the level map covering and the queue well formed, never lengthens the queue, and moves the stream to the position given |
| Scheduler.Commit | data_processing.py:342-355 | the level map becomes the old one with each row's level set in order; it returns exactly the touched names and the rows of the order |
| Scheduler.Step | data_processing.py:302-337 | an iteration keeps the level map covering and the queue well formed, and either advances the stream or shortens the queue, so the loop terminates |
| Scheduler.Run | data_processing.py:299-339 | the loop ends with the stream exhausted |
| Scheduler.RunStep | data_processing.py:301-339 | the run is one iteration followed by the run from its result, unless that iteration exhausted the stream |
| Scheduler.StepSkip | data_processing.py:302-307 | a met candidate is skipped with no output |
| Scheduler.StepEnqueue | data_processing.py:308-315 | a candidate needing several upgrades is pushed as a group with its efficiency and touched names, with no output |
| Scheduler.StepSingle | data_processing.py:317-327 | a single upgrade, when the queue is empty or its efficiency is strictly below the best group's, is committed, emitted with its own efficiency, and the queue is refreshed against its building |
| Scheduler.StepPop | data_processing.py:328-337 | otherwise the best group is removed, its rows are committed and emitted with the group's efficiency, the rest of the queue is refreshed, and the candidate is tried again |
| Scheduler.InvInit | data_processing.py:293-299 | the start state (empty queue, no output) satisfies the invariant |
| Scheduler.InvSkip | data_processing.py:303-307 | skipping keeps the invariant |
| Scheduler.InvEnqueue | data_processing.py:310-315 | queueing a legal chain aimed at the candidate keeps the invariant |
| Scheduler.InvCommit | data_processing.py:320-337 | committing a legal order with prerequisites first, then refreshing the queue, keeps the output legal with prerequisites first, every queued group so, and the level map equal to what the output leads to |
| Scheduler.InvSingle | data_processing.py:317-327 | committing a single upgrade keeps the invariant |
| Scheduler.InvPop | data_processing.py:328-337 | committing the best group keeps the invariant |
| Scheduler.InvStep | data_processing.py:302-337 | every iteration keeps the invariant and never lowers a level |
| Scheduler.RunInv | data_processing.py:301-339 | the whole loop keeps the invariant and never lowers a level |
| Scheduler.RunCorrect | data_processing.py:267-339 | the emitted rows form a legal build order from the initial levels in which every building's first level comes after its prerequisites reach their required levels, the final levels are what that order leads to, no level drops, and every candidate is met or still queued |
| Scheduler.Settle | data_processing.py:320-336 | a commit followed by the queue refresh against the touched buildings |
| Scheduler.CommitBest | data_processing.py:325-336 | pops the group no queued group strictly beats, applies its levels and refreshes the rest of the queue against the buildings it touched |
| Scheduler.Iterate | data_processing.py:302-337 | one pass of the imperative loop computes exactly the iteration `Step` |
| Scheduler.IterateSingle | data_processing.py:317-337 | for a single-upgrade candidate, the pass computes exactly the iteration `Step`: it commits the upgrade or the best group |
| Scheduler.SortByEfficiency | data_processing.py:267-339 | the imperative driver returns the output of `Run` and leaves the level map at `Run`'s final levels |
| Scheduler.StepAsWritten | data_processing.py:317-327 | the iteration with the source's statement order: a single upgrade on the last candidate raises the level and then stops |
| Scheduler.RunAsWritten | data_processing.py:299-339 | the loop with the source's statement order ends with the stream exhausted |
| Scheduler.StepAsWrittenCases | data_processing.py:317-327 | the iteration as written agrees with the corrected one except for a single upgrade on the last candidate |
| Scheduler.RunAsWrittenStep | data_processing.py:301-339 | the run as written is one iteration followed by the rest of the run |
| Scheduler.DropAtEnd | data_processing.py:320-337 | a single upgrade on the last candidate: same final levels, but the run as written lacks the row emitted last |
| Scheduler.RunAsWrittenDrop | data_processing.py:317-339 | the run as written ends with the same levels as the corrected run, and its output is the same or lacks exactly the last row |
| Scheduler.LastSingleLost | data_processing.py:320-337 | on a one-row table the run as written raises the building but returns no row, while the corrected run returns it |

## Left out

- Reading the Excel workbook (`read_excel`, `time_parser`), `flatten_all_buildings`, `build_name_level_to_index_mapping`, `build_building_prerequisites`, `to_csv` and the `__main__` block: file I/O and fixed configuration. The table, the index mapping and the prerequisite map are fields of `Config`.
- The initial `sort_values` on the ratio column: the candidate stream is a parameter, and every proved property holds for any order of it.
- The DataFrame mechanics: an emitted row is a table index plus the efficiency it is tagged with. The unused `row_num` counter is dropped.
- Floating-point and `pd.Timedelta` arithmetic: cost and time are integers (time in whole seconds), efficiency is exact `real` division, and NaN / NaT is the `Undefined` case.
- heapq's internal layout and tie-breaking: the queue is a sequence in insertion order. `Group.__eq__` is never consulted by the scheduler, since heapq compares groups only with `<`, so it is not modelled.
- Groups.GroupPriorityQueue.Peek: with undefined efficiencies, heapq's top need not be a minimum, because comparisons with NaN break the heap order; the model returns the first group that no group strictly beats and claims nothing about heap placement.
- Groups.GroupPriorityQueue.Pop: the same caveat as `Peek` about which group is taken.
- Groups.RefreshOne: a group whose chain is empty or names a row outside the table cannot be built by the scheduler, and for such a group the function returns it unchanged.
- The `KeyError`s for a (name, level) missing from the index mapping or a building missing from the level map: these become preconditions (`ValidConfig` and `Covers`).
- The `ValueError` for an invalid value type: `Metric` has only the two cases.
- Prerequisite cycles: `_find_build_order` would call itself until CPython's recursion limit and raise `RecursionError`. `Config` carries a ghost rank on building names that prerequisites strictly decrease, and `ValidConfig` requires it.
- An empty candidate stream: the first `next(rows)` sits outside the `try` and raises `StopIteration` to the caller. The driver requires a non-empty stream.
- Scheduler.SortByEfficiency: implements the corrected statement order of `Run` (emit and refresh before advancing to the next candidate), not the order as written; see Findings.

## Findings

| source | as written | input that shows it | evidently intended | confidence | as-written member | corrected member |
|---|---|---|---|---|---|---|
| data_processing.py:320-337 | in the single-upgrade branch the row iterator advances (line 324) before the row is appended (line 337) and before the queue is refreshed (line 334); on the last candidate `StopIteration` leaves the loop with the level already raised and the row never appended | a one-row table holding level 1 of "Cranny", the building at level 0, and the stream of that one row | the committed row is emitted, so the output accounts for every level the run raised | high, not executed | Scheduler.RunAsWritten, Scheduler.LastSingleLost | Scheduler.Run, Scheduler.RunCorrect |
