# MS-RCPSP scheduling core in Dafny

This project models the scheduling engine of a solver for the multi-skill
resource-constrained project scheduling problem (MS-RCPSP) and proves
properties of it. A project is a list of activities, each with a duration,
successor and predecessor lists, and per-skill demands and required
levels. It is staffed from a list of resources, each holding some skills
at some levels. The model covers four parts of the engine.

- **Instance loading and critical-path bounds** (`msrcpsp_final.py`,
  `improved_scheduler.py`). Activity lines and skill-level lines are
  decoded from text, predecessor lists are derived from successor lists,
  and two in-place passes fill in earliest and latest start and finish and
  slack. Modules: `TextInts`, `Project`, `InstanceParser`, `ExtendedInt`,
  `TimeBounds`.
- **Resource matchers.** The strict matcher of the single-pass scheduler
  (`StrictMatcher`). The matcher with four relaxation levels
  (`RelaxedMatcher`): strict, one level below, any level, and multi-use
  fillers.
- **List schedulers.** Both run a simulated clock. The ready activities
  are ordered by a priority rule, the first one the matcher can staff is
  committed, and otherwise the clock advances. Modules: `ReadyOrder`,
  `Intervals`, `Schedules`, `GreedyScheduler` (single pass) and
  `RelaxationScheduler` (one restart per relaxation level).
- **Priority rankers** (`paste.py`, `algorithmes.py`). They cover:
  - the positional weight HRPW* and the MTS successor counts;
  - the ten `sort_by_*` rules, modelled as a stable sort (`StableSort`, `Rankings`);
  - the priority-guided topological reordering (`TopoOrder`);
  - the graph building from `pred`/`succ` arrays (`PrecedenceGraph`);
  - `compute_temporal_metrics` (`TemporalMetrics`);
  - the two ranking classes themselves (`PriorityRules.PriorityAlgorithms`,
    `PriorityRanker.AlgorithmesPriorite`).

State that the source changes in place stays in place in the model:
- the activity list is an `array<Activity>` for predecessor linking and
  for the time-bound passes;
- the memo tables of the ranking classes are class fields;
- the `est`/`lst`/`lft` lists of `compute_temporal_metrics` are arrays.

The pure parts are functions, each paired with lemmas:
- the key sort;
- the peel that reorders a ranking;
- the weight and reachability recursions;
- the matchers.

Each loop of the source is a method proved against one of these functions.

Some behaviours of the source are stated and proved as they are:

- Both schedulers count an activity as completed when it is committed,
  not when it ends. A schedule therefore puts every activity after its
  predecessors in commit order, with a start no earlier than its earliest
  start. It does not promise that the activity starts after they end.
- In the relaxing scheduler, the "next release" search starts from
  `now + 1`. Every recorded end later than `now` is at least `now + 1`, so
  the clock always moves by exactly one when nothing fits
  (`RelaxationScheduler.NextTime`).
- At relaxation level 3 a versatile resource can be handed two slots of
  one activity (`RelaxedMatcher.MultiUseRepeatsResource` exhibits one).
  Distinctness is proved for levels 0 to 2 only.
- The path count that `algorithmes.py` uses for MTS counts an activity
  once per path. It is at least the distinct count that `paste.py` uses
  (`PriorityRanker.MtsCountsAtLeastDistinct`).
- The two ranking classes sort TIMROS and TIMRES in opposite directions
  (`PriorityRanker.DirectionsDiffer`).

The code is followed throughout. The example instance in
`exemple_ml.py:33-59` lists earliest starts that do not match its own data:
`est[4]` is given as 4, but activity 4's only predecessor, activity 2,
finishes at `est[2] + dur[2] = 3`.

## Model

| member | source | states |
|---|---|---|
| ExtendedInt.Sub | msrcpsp_final.py:184 | `inf - d` stays the same infinity; a finite value minus `d` gives back the value when `d` is added |
| ExtendedInt.Min | msrcpsp_final.py:182 | Python's `min(a, b)` on values that may be `inf`: no larger than either argument, and one of them |
| Project.Zeros | msrcpsp_final.py:92-93 | `[0] * n` has length `max(n, 0)` and holds only zeros |
| TextInts.WordPrefix | msrcpsp_final.py:81 | the first token of a line is a separator-free prefix, ended by a separator or by the end of the line |
| TextInts.Words | msrcpsp_final.py:81 | `line.split()` yields non-empty tokens without separators |
| TextInts.ParseInt | msrcpsp_final.py:81 | on tokens of ASCII digits without `_` grouping, `int(token)` succeeds exactly on an optional sign followed by one or more digits |
| TextInts.ParseAll | msrcpsp_final.py:81 | `list(map(int, ...))` keeps one integer per token when every token parses |
| TextInts.ShowNatValue | msrcpsp_final.py:81 | the decimal digits written for `n` read back as `n` |
| TextInts.ShowIntParses | msrcpsp_final.py:81 | `int()` of the decimal form of any integer gives that integer back |
| TextInts.WordsOfJoin | msrcpsp_final.py:81 | splitting space-joined, separator-free words gives the words back |
| TextInts.ParseShowAll | msrcpsp_final.py:81 | parsing each written integer gives the list back |
| TextInts.ParseFormat | msrcpsp_final.py:81 | reading a written line of integers gives exactly those integers back |
| InstanceParser.ToZeroBased | msrcpsp_final.py:85 | each 1-based successor id `s` becomes `s - 1`, with the length kept |
| InstanceParser.DecodeActivityLine | msrcpsp_final.py:79-95 | succeeds iff the line parses to at least two integers. Then: id `i`; the first integer is the duration; no predecessors; zeroed skill lists; successors are the next `count` ids (fewer if the line is short, none for `count <= 0`), each minus one. Otherwise the error names line `i` |
| InstanceParser.DecodeEncodeActivity | msrcpsp_final.py:79-95 | decoding the written form of an activity line gives back its duration and its 0-based successors |
| InstanceParser.LevelRequirementLine | msrcpsp_final.py:131-137 | `"-1"` gives the empty level list. Any other line gives its integers, or an error iff it does not parse |
| InstanceParser.LevelLineSentinel | msrcpsp_final.py:133-134 | `"-1"` spells the list `[-1]` yet reads as `[]`; every other written list of levels reads back as itself |
| InstanceParser.DecodeActivities | msrcpsp_final.py:79-95 | reads `n` activities from consecutive lines. It succeeds iff every line exists and decodes, and then entry `i` is the activity decoded from line `start + i` and entries are numbered by position |
| InstanceParser.ApplyLevelRequirements | msrcpsp_final.py:127-137 | succeeds iff every present line decodes. Then every activity with a line gets that line's levels, and those past the last line are unchanged |
| InstanceParser.ComputePredecessors | msrcpsp_final.py:144-149 | in place: each activity ends as its initial self plus the ids of the activities listing it as a successor, appended in list order, once per occurrence |
| InstanceParser.LinkSuccessors | msrcpsp_final.py:146-149 | one round of the outer loop advances every activity by exactly one step of the linking specification |
| InstanceParser.HitsMembers | msrcpsp_final.py:147-149 | an id is appended for activity `j` iff `j` occurs among the successors |
| InstanceParser.IncomingMembers | msrcpsp_final.py:146-149 | `x` is among `j`'s appended predecessors iff some activity with id `x` lists `j` as a successor |
| InstanceParser.LinkedAfterCompute | msrcpsp_final.py:144-149 | after linking, every in-range successor lists its predecessor (out-of-range ids skipped). On a topologically numbered file with no prior predecessors, every predecessor has a smaller index |
| TimeBounds.ForwardPass | msrcpsp_final.py:158-168 | in place, in list order: every activity gets the earliest start and finish of the forward recurrence, and nothing else changes |
| TimeBounds.BackwardPass | msrcpsp_final.py:173-185 | in place, in reverse order: every activity gets the latest finish, latest start and slack of the backward recurrence |
| TimeBounds.ComputeTimeBounds | msrcpsp_final.py:157-185 | fails iff there are no activities (the `max()` of line 171 raises), leaving the list untouched. Otherwise every activity holds its bounds under deadline `max(level_deadline, max EF)` |
| TimeBounds.MaxPredFinishIsMax | msrcpsp_final.py:163-167 | the running maximum is non-negative, at least each predecessor's earliest finish seen so far, and either 0 or one of them |
| TimeBounds.EarliestStartIsMax | improved_scheduler.py:21-31 | ES is 0 without predecessors; otherwise at least every predecessor's EF, and 0 or one of them. The in-range guard of line 27 always holds on such a list |
| TimeBounds.MaxEarliestFinishIsMax | msrcpsp_final.py:171 | `max_ef` is at least every earliest finish and equals one of them |
| TimeBounds.DeadlineIsMax | msrcpsp_final.py:172 | the deadline is at least the level deadline and every earliest finish, and equals one of them |
| TimeBounds.MinSuccStartIsMin | msrcpsp_final.py:178-183 | the running minimum is at most each in-range successor's latest start, and is `inf` or one of them |
| TimeBounds.LatestFinishIsMin | msrcpsp_final.py:175-183 | LF is the deadline without successors; otherwise at most every in-range successor's LS, and `inf` or one of them |
| TimeBounds.FinishWithinLatest | msrcpsp_final.py:157-185 | on a linked, topologically numbered list, every activity's earliest finish is at most its latest finish |
| TimeBounds.SlackNonNegative | msrcpsp_final.py:184-185 | slack is never negative, and the latest start is never before the earliest start |
| Intervals.IsTimeFree | msrcpsp_final.py:219-223 | the early-exit loop returns true iff no recorded interval of the resource meets `[s, e)` |
| Intervals.RecordBusy | msrcpsp_final.py:294-295 | appends `(start, end)` to the busy list of every assigned resource, once per occurrence |
| Intervals.RecordAppended | msrcpsp_final.py:294-295 | recording appends the interval to exactly the listed resources, as many times as each is listed, and leaves the others alone |
| Schedules.EntryIdsSnoc | msrcpsp_final.py:291 | appending an entry appends its activity id |
| Schedules.MaxEndIsMax | msrcpsp_final.py:307 | the makespan is 0 for an empty schedule, otherwise the largest end, attained by some entry |
| Schedules.CommitKeepsExclusive | msrcpsp_final.py:289-297 | committing on resources free over the new interval, and recording it, keeps two entries sharing a resource apart in time |
| StrictMatcher.PyTake | msrcpsp_final.py:234 | `xs[:k]` is a prefix, of length `k` when `0 <= k <= len` |
| StrictMatcher.StrictMatch | msrcpsp_final.py:192-193 | an activity of duration 0 or total demand 0 gets `(True, [])` |
| StrictMatcher.CanScheduleActivity | msrcpsp_final.py:187-236 | the loops return `(True, ids)` exactly when the matcher specification succeeds with `ids`, and `(False, [])` otherwise |
| StrictMatcher.CandidatesProps | msrcpsp_final.py:203-227 | the candidates for a skill are increasing positions of eligible resources not yet taken, no more than there are eligible resources |
| StrictMatcher.StrictBlocksSound | msrcpsp_final.py:198-234 | on success there is one block per skill, the earlier blocks are kept, and all ids are distinct. Each later block has exactly the demanded count of resources holding the skill at the level, free over the interval |
| StrictMatcher.StrictBlocksShort | msrcpsp_final.py:229-231 | a demanded skill with fewer eligible resources than required makes the rest fail |
| StrictMatcher.StrictMatchSound | msrcpsp_final.py:187-236 | on success the ids are distinct existing resources, free over `[start, start + duration)`. Unless the activity is a dummy, they split into per-skill blocks of the demanded size, each holding the skill at the level |
| StrictMatcher.StrictMatchNeedsEnough | msrcpsp_final.py:229-231 | a non-dummy activity with a short skill gets `(False, [])` |
| StrictMatcher.StrictMatchFree | msrcpsp_final.py:219-227 | whatever the resource numbering, every returned id is free over the activity's interval |
| RelaxedMatcher.ResIds | improved_scheduler.py:137-138 | the ids of a resource list, in order |
| RelaxedMatcher.Take | improved_scheduler.py:137-138 | the first `k` resources: none for `k <= 0`, all when `k` exceeds the length |
| RelaxedMatcher.RelaxedMatch | improved_scheduler.py:59-61 | an activity of duration 0 or total demand 0 gets `(True, [])` at every level |
| RelaxedMatcher.FindAvailableResources | improved_scheduler.py:50-140 | the loops return `(True, ids)` exactly when the relaxed specification succeeds with `ids` at that level, and `(False, [])` otherwise |
| RelaxedMatcher.FreeResources | improved_scheduler.py:63-73 | the first loop keeps, in order, exactly the resources free over `[start, end)` |
| RelaxedMatcher.SuitableFor | improved_scheduler.py:82-110 | the suitable list is the free resources, not yet taken, holding the skill and passing the level test |
| RelaxedMatcher.PoolFor | improved_scheduler.py:82-130 | the candidate list is the suitable list, topped up at level 3 and above |
| RelaxedMatcher.CountCovered | improved_scheduler.py:120-125 | counts the demanded skills the resource holds |
| RelaxedMatcher.TopUp | improved_scheduler.py:113-130 | appends versatile free resources not yet taken until the list reaches `required`, or the fillers run out |
| RelaxedMatcher.AppendIds | improved_scheduler.py:137-138 | appends the ids of the first `required` suitable resources |
| RelaxedMatcher.BlocksStep | improved_scheduler.py:132-138 | a skill with enough candidates adds its block and the match continues with it |
| RelaxedMatcher.FillersPrefix | improved_scheduler.py:116-130 | the fillers found in a prefix are a prefix of all fillers, so stopping early takes the first ones |
| RelaxedMatcher.AvailableMembers | improved_scheduler.py:63-73 | every available resource is a resource free over the interval |
| RelaxedMatcher.SuitableMembers | improved_scheduler.py:84-110 | every suitable resource is available, not yet taken, holds the skill (`> 0`) and passes the level test |
| RelaxedMatcher.FillersMembers | improved_scheduler.py:116-128 | every filler is available, not yet taken, and covers two or more demanded skills |
| RelaxedMatcher.SuitableAtMostQualified | improved_scheduler.py:84-110 | a suitable list is never longer than the number of free resources qualified for the skill |
| RelaxedMatcher.SuitableIncreasing | improved_scheduler.py:84-110 | with increasing ids, a suitable list has increasing ids and so no repeated resource |
| RelaxedMatcher.AvailableIncreasing | improved_scheduler.py:63-73 | with resources numbered by position, the available list has increasing ids, each naming its own position |
| RelaxedMatcher.RelaxedBlocksSound | improved_scheduler.py:78-138 | on success there is one block per skill, the earlier blocks are kept, and each later block has the demanded count of free, qualified resources taken from no earlier block |
| RelaxedMatcher.RelaxedMatchBlocks | improved_scheduler.py:57-140 | a successful match splits into one block per skill of the demanded size, each resource free and qualified for its skill at that level |
| RelaxedMatcher.RelaxedMatchFree | improved_scheduler.py:63-73 | at every level, fillers included, each returned id names a resource free over `[start, start + duration)` |
| RelaxedMatcher.RelaxedBlocksDistinct | improved_scheduler.py:84-86 | below level 3, resources taken for earlier skills are skipped, so all ids are distinct |
| RelaxedMatcher.RelaxedMatchDistinct | improved_scheduler.py:84-86 | below level 3, with resources numbered by position, the returned ids are distinct existing resources |
| RelaxedMatcher.RelaxedBlocksShort | improved_scheduler.py:132-134 | below level 3, a skill with fewer free qualified resources than demanded makes the rest fail |
| RelaxedMatcher.RelaxedMatchNeedsEnough | improved_scheduler.py:132-134 | below level 3, a non-dummy activity with a short skill gets `(False, [])` |
| RelaxedMatcher.LevelLadder | improved_scheduler.py:96-107 | where the required level is at least 1, level 1 accepts whatever level 0 does, and levels 2 and 3 accept anyone. At required level 0, level 1 rejects a level-0 resource that level 0 accepts |
| RelaxedMatcher.ExamplePoolSkill0 | improved_scheduler.py:113-130 | in the example, the level-3 top-up of skill 0 appends the suitable resource again: `[r0, r0]` |
| RelaxedMatcher.ExampleBlocksLevel3 | improved_scheduler.py:78-138 | in the example, level 3 assigns `[[r0, r0], [r1]]` |
| RelaxedMatcher.MultiUseRepeatsResource | improved_scheduler.py:113-138 | one instance where level 3 returns `[0, 0, 1]`, with resource 0 twice, while level 2 fails |
| ReadyOrder.StrictKey | msrcpsp_final.py:262-281 | a known rule gives its own key; any other name gives the EST key |
| ReadyOrder.Tagged | msrcpsp_final.py:262-281 | pairs each ready activity with its key, in order |
| ReadyOrder.OrderReady | msrcpsp_final.py:262-281 | the single-pass scheduler's ordering of the ready list is a rearrangement of it (same multiset of ids) |
| ReadyOrder.OrderReadyRelaxed | improved_scheduler.py:171-184 | the relaxing scheduler's ordering of the ready list is a rearrangement of it (same multiset of ids) |
| ReadyOrder.OrderReadyRelaxedSpec | improved_scheduler.py:171-184 | with no fallback branch, an unknown rule name leaves the ready list exactly as collected; a known rule sorts it ascending by that rule's key, with ties in list order |
| ReadyOrder.OrderReadySpec | msrcpsp_final.py:262-281 | the sorted ready list is a permutation of the ready list, ascending by key, with ties in list order (stable sort) |
| ReadyOrder.UnknownRuleIsEst | msrcpsp_final.py:279-281 | an unknown rule name orders exactly as `"EST"` does |
| ReadyOrder.CollectReady | msrcpsp_final.py:251-259 | collects, in list order, exactly the activities not committed, with every predecessor committed and, in the single-pass scheduler, ES no later than now. The list is exactly `ReadyUpTo`, the in-order filter |
| GreedyScheduler.FirstFit | msrcpsp_final.py:284-299 | finds the first activity in priority order that the matcher can staff now, with its ids (the fit `FitFrom` names). All earlier ones fail, none fits when not found, and the ids are free (distinct and existing when resources are numbered by position) |
| GreedyScheduler.Pass | msrcpsp_final.py:247-302 | one iteration of the loop: collect the ready activities (ES no later than now), order them by the rule, commit the first one the matcher staffs at `now`, otherwise advance `now` by one; the result is exactly `PassSpec` and keeps the loop invariant |
| GreedyScheduler.CommitPass | msrcpsp_final.py:290-298 | committing a ready activity at `now` on free resources yields exactly `CommittedAt`: entry appended, interval recorded on each resource, id added to `completed`, clock unchanged |
| GreedyScheduler.UnknownRuleRunsAsEst | msrcpsp_final.py:279-281 | with an unknown rule name the whole run, schedule and iteration count, is the same as the run with `"EST"` |
| GreedyScheduler.CommitKeepsProgress | msrcpsp_final.py:289-299 | committing a ready activity on free resources keeps the schedule valid and recorded, with `completed` its set of ids |
| GreedyScheduler.CommitKeepsSchedule | msrcpsp_final.py:289-297 | the schedule half of a commit: validity, exclusive resources, and the calendar |
| GreedyScheduler.CommitKeepsBookkeeping | msrcpsp_final.py:297 | `completed` stays the set of committed ids, of the same size, and starts stay ordered |
| GreedyScheduler.ValidAppend | msrcpsp_final.py:289-297 | appending a ready activity's entry, with ES before its start and after every earlier start, keeps the schedule valid |
| GreedyScheduler.Commit | msrcpsp_final.py:289-299 | appends the entry `(id, now, now + duration, ids)`, adds the id to `completed`, and keeps the loop invariant |
| GreedyScheduler.ScheduleWithPriority | msrcpsp_final.py:238-308 | makespan is the latest end. The schedule is valid: each activity at most once, after its predecessors in commit order, no earlier than its ES, starts in commit order, no resource in two overlapping entries, distinct resources per entry. The schedule and the iteration count are exactly those of `Run`, which repeats `PassSpec` from time 0 while an activity is uncommitted and fewer than 10000 iterations have run; so at most 10000 iterations, and when fewer ran every activity is committed |
| RelaxationScheduler.StartFor | improved_scheduler.py:188 | the start is `max(now, earliest_start)` |
| RelaxationScheduler.NextTime | improved_scheduler.py:208-218 | the clock advance is always `now + 1`, which is no later than any busy end after `now` |
| RelaxationScheduler.FirstFitRelaxed | improved_scheduler.py:186-206 | as `FirstFit`, with each activity tried at `max(now, ES)` and the level's matcher. The result is the first match `FirstFitFrom` names, or none |
| RelaxationScheduler.CommitKeepsStateOk | improved_scheduler.py:194-206 | committing at `max(now, ES)` keeps the run invariant, with the clock moved to the start |
| RelaxationScheduler.CommitRelaxed | improved_scheduler.py:194-206 | appends the entry at `max(now, ES)`, adds the id, resets stagnation, and moves the clock to the start |
| RelaxationScheduler.Step | improved_scheduler.py:156-223 | keeps the run invariant and never moves the clock back. The new state is `StepSpec`: the first ready activity in rule order that the matcher can staff is committed with the clock at its start. If none fits, the clock advances by one with stagnation plus one |
| RelaxationScheduler.CompletedBounded | improved_scheduler.py:154-155 | `completed` never outgrows the activity list |
| RelaxationScheduler.LoopPass | improved_scheduler.py:154-222 | one iteration keeps the run invariant, raises stagnation by at most one, and moves the run one pass along: the run from the old state is the new state when stagnation now exceeds 1000, else the run from the new state |
| RelaxationScheduler.RunLoopFrom | improved_scheduler.py:154-222 | from any state satisfying the run invariant, the loop ends in the state `RunFrom` specifies from there. If some activity is left uncommitted, 10000 iterations ran or stagnation exceeded 1000 |
| RelaxationScheduler.RunLoop | improved_scheduler.py:146-223 | the loop ends in the state `LevelRun` specifies, with the run invariant kept. If some activity is left uncommitted, 10000 iterations ran or stagnation exceeded 1000 |
| RelaxationScheduler.RunLevel | improved_scheduler.py:145-223 | from a fresh state the level yields a valid schedule, with distinct resources below level 3. The schedule is the one `LevelRun` specifies. It is complete iff every activity is committed, iff `LevelComplete` holds; otherwise 10000 iterations ran or stagnation exceeded 1000 |
| RelaxationScheduler.ScheduleWithProgressiveRelaxation | improved_scheduler.py:142-232 | makespan is the latest end of a valid schedule, with distinct resources below level 3. The schedule is that of the returned level's run. Every lower level's run is incomplete, and the returned level is complete or is level 3 |
| RelaxationScheduler.CompleteCoversAll | improved_scheduler.py:225-228 | a complete schedule commits every activity of the list |
| IdLists.AllActivities | paste.py:23 | `list(range(1, n + 1))`: `n` entries, entry `i` being `i + 1` |
| IdLists.NoDupSetSize | paste.py:283-286 | a duplicate-free list has as many members as entries |
| IdLists.SameElemsPermutation | paste.py:278-279 | two duplicate-free lists with the same members are permutations |
| StableSort.ExtKeyMonotone | paste.py:228-233 | keys of values with infinities compare as the values do |
| StableSort.KeyLeTotal | paste.py:161-240 | any two sort keys are comparable |
| StableSort.KeyLeTrans | paste.py:161-240 | key order is transitive |
| StableSort.SortSpec | paste.py:161-240 | Python's stable `sorted` over identifiers in increasing order: a permutation, ordered by key in the requested direction, with equal keys in increasing identifier order even when reversed |
| Rankings.Tag | paste.py:161-167 | pairs activity `t` with its key `keys[t - 1]`, for `t` in 1..n |
| Rankings.RankByContents | paste.py:161-240 | every ranking is a permutation of 1..n |
| Rankings.RankBySpec | paste.py:161-240 | the stable sort of the tagged activities lists 1..n once each, ordered by key, ties by identifier |
| Rankings.RankedByIsPermutation | paste.py:161-240 | a ranking has no repeats and lists every activity |
| Rankings.RuleNamed | paste.py:295-312 | the name table finds only the rule whose name was asked for |
| Rankings.RuleNamesComplete | algorithmes.py:146-157 | every one of the ten rules is found under its own name |
| PrecedenceGraph.WalkDescends | paste.py:259 | along any walk of a ranked graph the rank strictly drops |
| PrecedenceGraph.DagHasNoCycle | paste.py:259 | a graph admitting a rank has no cycle |
| PrecedenceGraph.Completed | paste.py:49-56 | the completed graph has a node for each of the activities 1..n |
| PrecedenceGraph.EmptyGraph | paste.py:397-399 | one empty node per activity |
| PrecedenceGraph.BuildGraph | paste.py:394-411 | the loop over `zip(pred, succ)` builds the graph of the specification |
| PrecedenceGraph.AddEdgeLists | paste.py:406-409 | adding a pair appends `s` to `p`'s successors and `p` to `s`'s predecessors when both are activities |
| PrecedenceGraph.BuiltEdges | paste.py:394-411 | one node per activity, every neighbour an activity; `b` follows `a`, and `a` precedes `b`, exactly when the arrays list the pair |
| PrecedenceGraph.BuiltMirrored | paste.py:394-411 | the built predecessor lists are the successor lists read backwards |
| TopoOrder.FirstReady | paste.py:272-275 | the chosen position holds a remaining activity with no remaining predecessor |
| TopoOrder.FirstReadyIsFirst | paste.py:283-284 | no earlier position holds a remaining, ready activity |
| TopoOrder.PeelLoop | paste.py:270-286 | the while loop computes the specification peel: the activities taken in order, and those left when it stopped |
| TopoOrder.PeelPartition | paste.py:270-286 | each activity is taken at most once, and taken plus left is exactly the remaining set |
| TopoOrder.PeelStuck | paste.py:277-280 | the peel stops early only when every left activity still has a left predecessor |
| TopoOrder.PeelTopological | paste.py:263-288 | every taken activity comes after each of its predecessors that was to be ordered |
| TopoOrder.PeelTakesFirst | paste.py:270-286 | step `j` takes, among the activities still remaining and ready, the one listed first in the input ranking |
| TopoOrder.DagPeelsAll | paste.py:270-286 | on an acyclic graph the peel takes every activity |
| TopoOrder.IsAcyclic | paste.py:259 | answers true exactly on acyclic graphs |
| TopoOrder.SortedElems | paste.py:279 | `sorted(remaining)`: the set's members, increasing |
| TopoOrder.RespectPrecedenceConstraints | paste.py:242-288 | a cyclic graph gives back the input unchanged. On an acyclic one the result is the peel: a permutation of the input with every activity after its predecessors |
| TopoOrder.ListOfSet | algorithmes.py:137 | `list(remaining)` lists each member once, in some order |
| TopoOrder.RespectPrecedence | algorithmes.py:116-137 | the peel followed by the leftovers in some order: a duplicate-free permutation, exactly the peel on an acyclic graph |
| TopoOrder.PeelKeepsTopological | paste.py:270-286 | a ranking that already respects precedence comes back unchanged |
| TopoOrder.PeelIdempotent | paste.py:242-288 | reordering an already reordered ranking changes nothing |
| TopoOrder.PeeledRank | paste.py:258-261 | a complete topological order of all activities yields a rank, so the graph is acyclic |
| PositionalWeight.MaxOf | paste.py:79 | `max()` of a non-empty list is a member and no member exceeds it |
| PositionalWeight.MinOf | paste.py:460 | `min()` of a non-empty list is a member and no member is below it |
| PositionalWeight.SuccWeightAt | paste.py:79 | each successor has a lower rank, and its weight is the matching list entry |
| PositionalWeight.HrpwSink | paste.py:72-74 | an activity without successors weighs its own duration |
| PositionalWeight.HrpwAboveSucc | paste.py:75-80 | an activity weighs at least its duration plus each successor's weight |
| PositionalWeight.HrpwAttained | paste.py:75-80 | it weighs exactly its duration plus some successor's weight |
| PositionalWeight.HrpwAtLeastDuration | paste.py:63-83 | with non-negative durations an activity weighs at least its own duration |
| PositionalWeight.ReachClosed | paste.py:99-107 | the reachable set is closed under successor edges |
| PositionalWeight.ReachLeast | paste.py:99-107 | any successor-closed set holding `t` holds everything reachable from `t` |
| PositionalWeight.ReachInRange | paste.py:99-107 | everything reachable is an activity |
| PositionalWeight.CountPathsCoversReach | algorithmes.py:64-72 | the recursive path count is at least the number of distinct activities reachable, `t` excluded |
| PriorityRules.OrDefault | paste.py:24-30 | `data.get(key, [d] * n)`: the given list, or `n` copies of `d` |
| PriorityRules.UnitUsage | paste.py:114-123 | the default usage table gives 1 to exactly the activities 1..n |
| PriorityRules.CountDemanded | paste.py:133 | counts exactly the demanded (non-zero) skills |
| PriorityRules.CountCapable | paste.py:147-155 | counts exactly the resources whose mastery covers every demanded skill |
| PriorityRules.CapableAtMost | paste.py:147-157 | no more resources are capable than there are resources |
| PriorityRules.FrontierVisit | paste.py:103-107 | visiting the front of the queue and queueing its successors keeps every successor of a visited activity visited or queued |
| PriorityRules.Search | paste.py:95-110 | the breadth-first search ends with exactly the activities reachable from the task |
| PriorityRules.PriorityAlgorithms.constructor | paste.py:16-47 | fills in each key's default, completes the graph (lines 49-56), sets `eft = est + dur` and `float_dyn` (`inf` by default), installs the unit usage table when none is given, and memoises every activity's weight |
| PriorityRules.PriorityAlgorithms.ComputeHrpw | paste.py:63-83 | returns the positional weight of the task and memoises it; memo entries stay right |
| PriorityRules.PriorityAlgorithms.HeaviestSuccessor | paste.py:79 | the maximum weight among the successors |
| PriorityRules.PriorityAlgorithms.HeavierSuccessor | paste.py:79 | one step of that maximum: the maximum over one more successor |
| PriorityRules.PriorityAlgorithms.CountTotalSuccessors | paste.py:90-112 | the number of distinct activities reachable from the task, itself excluded, memoised |
| PriorityRules.PriorityAlgorithms.ResourceDemand | paste.py:125-136 | with skill data: `max(number of demanded skills, 1)`; otherwise the usage entry, default 1 |
| PriorityRules.PriorityAlgorithms.ResourceAvailability | paste.py:138-157 | with skill data: `max(number of capable resources, 1)`; otherwise 1; always between 1 and `max(number of resources, 1)` |
| PriorityRules.PriorityAlgorithms.MtsKeys | paste.py:183-189 | the MTS key of each activity is its distinct-successor count |
| PriorityRules.PriorityAlgorithms.HrpwKeys | paste.py:161-167 | the HRPW* key of each activity is its memoised weight |
| PriorityRules.PriorityAlgorithms.SortBy | paste.py:161-240 | each `sort_by_*` is the stable sort by the rule's key. HRPW*, MTS, TIMROS, HRU1, TIMRES and HRU2 sort descending, the others ascending. The result lists 1..n once each, ordered by key, ties by identifier |
| PriorityRules.PriorityAlgorithms.GetOrderedActivities | paste.py:290-318 | fails (ValueError) iff the name is not one of the ten. Otherwise it returns the peel of the rule's ranking: a permutation of 1..n in which every activity follows its predecessors |
| PriorityRules.PriorityAlgorithms.AllPriorityOrders | paste.py:320-329 | maps each of the ten rule names, and nothing else, to that rule's ordering |
| PriorityRules.PriorityAlgorithms.EveryRuleOrdered | paste.py:322-327 | a table holding every rule's name, each mapped to its rule's ordering, holds every rule's ordering |
| PriorityRanker.CompleteGraph | algorithmes.py:26-32 | adds an empty node for each activity 1..n that is missing, and keeps every existing entry |
| PriorityRanker.UsageOr | algorithmes.py:78 | `usage.get(t, d)` |
| PriorityRanker.DirectionsDiffer | algorithmes.py:74-96 | the two classes sort in the same direction under every rule except TIMROS and TIMRES |
| PriorityRanker.MtsCountsAtLeastDistinct | algorithmes.py:64-72 | on an acyclic graph the path count is never below `paste.py`'s distinct count |
| PriorityRanker.AlgorithmesPriorite.constructor | algorithmes.py:9-24 | requires `dur`. Fills in the defaults of `est`, `lst`, `lft` and `float_dyn` (`inf`), completes the graph dictionary, and memoises every activity's weight |
| PriorityRanker.AlgorithmesPriorite.ComputeHrpwAll | algorithmes.py:48-50 | afterwards every activity's weight is memoised, and memo entries are right |
| PriorityRanker.AlgorithmesPriorite.ComputeHrpw | algorithmes.py:34-46 | returns the positional weight of the task and memoises it |
| PriorityRanker.AlgorithmesPriorite.HeaviestSuccessor | algorithmes.py:43 | the maximum weight among the successors |
| PriorityRanker.AlgorithmesPriorite.HeavierSuccessor | algorithmes.py:43 | one step of that maximum |
| PriorityRanker.AlgorithmesPriorite.CountSuccessors | algorithmes.py:65-70 | the recursive count: the number of successors plus each successor's own count, once per path |
| PriorityRanker.AlgorithmesPriorite.MtsKeys | algorithmes.py:64-72 | the MTS key of each activity is its path count |
| PriorityRanker.AlgorithmesPriorite.ScoreKeys | algorithmes.py:74-96 | TIMROS keys are `dur / usage`, TIMRES keys `dur * usage`, with usage defaulting to 1 and a zero usage giving `inf` |
| PriorityRanker.AlgorithmesPriorite.HrpwKeys | algorithmes.py:52-56 | the HRPW* key of each activity is its memoised weight |
| PriorityRanker.AlgorithmesPriorite.SortBy | algorithmes.py:52-114 | stable sort by the rule's key. HRPW*, MTS, HRU1 and HRU2 sort descending; LST, LFT, TIMROS, TIMRES, STFD and EFT ascending; HRU usage defaults to 0. The result lists 1..n once each, ties by identifier |
| PriorityRanker.AlgorithmesPriorite.GetOrderedActivities | algorithmes.py:145-162 | fails iff the name is unknown (ValueError) or the rule's list is shorter than the activity list (the IndexError of `lst`, `lft`, `float_dyn` or `est` lookups). Otherwise it returns the peel of the rule's ranking: a permutation of 1..n in which every activity follows its predecessors |
| TemporalMetrics.MirroredPredRank | paste.py:406-409 | a graph built from `pred`/`succ` arrays with acyclic successors has a rank that drops along predecessor edges |
| TemporalMetrics.PredFinishAt | paste.py:435-438 | each predecessor has lower rank, and its finish is the matching list entry |
| TemporalMetrics.EstAfterPred | paste.py:427-441 | an activity starts no earlier than any predecessor finishes |
| TemporalMetrics.EstAttained | paste.py:427-441 | with predecessors, it starts exactly when one of them finishes |
| TemporalMetrics.EstNonNegative | paste.py:427-441 | with non-negative durations no activity starts before 0 |
| TemporalMetrics.ProjectDurationBounds | paste.py:447 | every activity finishes by the project duration, and one finishes exactly then |
| TemporalMetrics.SuccStartAt | paste.py:460 | each successor has lower rank, and its latest start is the matching list entry |
| TemporalMetrics.LftBeforeSucc | paste.py:459-462 | an activity's latest finish is no later than each successor's latest start |
| TemporalMetrics.FinishWindow | paste.py:447-467 | on a mirrored acyclic graph, the latest finish is never before the earliest finish |
| TemporalMetrics.SuccStartWindow | paste.py:459-462 | every successor's latest start is at least the activity's earliest finish |
| TemporalMetrics.FloatNonNegative | paste.py:470 | `float_dyn = lst - est` is never negative |
| TemporalMetrics.CalculateEst | paste.py:427-441 | returns and stores the activity's earliest start. A positive entry is trusted as memoised, and every other entry keeps its value or becomes right |
| TemporalMetrics.LatestPredFinish | paste.py:435-438 | the maximum of `calculate_est(pred) + dur` over the predecessors |
| TemporalMetrics.PredFinish | paste.py:436 | one term of that maximum |
| TemporalMetrics.CalculateLst | paste.py:453-464 | recomputes and stores the activity's latest finish and latest start, and returns the latest start |
| TemporalMetrics.EarliestSuccStart | paste.py:460 | the minimum of `calculate_lst(succ)` over the successors |
| TemporalMetrics.SuccStart | paste.py:460 | one term of that minimum |
| TemporalMetrics.EarliestStarts | paste.py:425-444 | the first loop leaves every entry at the activity's earliest start |
| TemporalMetrics.LatestFinish | paste.py:447 | `max(est[i] + dur[i])` over the computed starts is the project duration |
| TemporalMetrics.LatestTimes | paste.py:449-467 | the second loop leaves every entry at the activity's latest start and latest finish |
| TemporalMetrics.ComputeTemporalMetrics | paste.py:416-477 | fails iff there are no activities (the empty `max()`). Otherwise `est`, `lft`, `lst` hold the recurrences for every activity (missing durations default to 1, missing nodes have no neighbours) and `float_dyn = lst - est` |

## Left out

- File and process I/O are not modelled: opening files, finding the section headers, printing, timing, and the command-line drivers. The parser works on an in-memory list of already stripped, non-blank lines. The project-parameter, workforce and skill-requirement sections are not decoded. Only the activity lines and the level-requirement lines are.
- The regular-expression readers of `.dzn` files are not modelled. Only the graph building from their `pred`/`succ` arrays is. A missing array behaves as an empty one.
- networkx is replaced by an explicit adjacency sequence (`Graph`). "Acyclic" is stated as the existence of a rank that drops along every successor edge (`Dag`). Kahn's peel (`TopoOrder.IsAcyclic`) decides it.
- PriorityRules.PriorityAlgorithms.constructor: requires an acyclic graph. On a cycle the source's weight recursion never ends (RecursionError), so the cycle branch of `_respect_precedence_constraints` can only be reached on its own (`TopoOrder.RespectPrecedenceConstraints` models it).
- PriorityRanker.AlgorithmesPriorite.constructor: requires an acyclic graph for the same reason, and requires `dur` to be present (KeyError otherwise). The `NetworkXUnfeasible` handler of `_respect_precedence` therefore never fires and is not modelled.
- Both ranking classes require every listed successor to be one of the activities 1..n (`WellFormed`). Otherwise the weight recursion looks up a missing key (KeyError).
- The `paste.py` constructor: the check that `resource_usage` is a dictionary is not modelled; usage is always a map.
- PriorityRules.PriorityAlgorithms.ResourceAvailability: requires every mastery row to be as long as every requirement row (`SkillDataFits`), as the instance matrices are. With shorter rows the source raises IndexError.
- The ranking classes require the `lst`, `lft` and `float_dyn` lists, and in `algorithmes.py` also `est` for EFT, to be at least `n` long for the rules that read them (`Supports`); the source raises IndexError otherwise. `PriorityRanker.AlgorithmesPriorite.GetOrderedActivities` returns that IndexError as a failure; the members below require `Supports` instead.
- PriorityRanker.AlgorithmesPriorite.SortBy: requires `Supports(rule)`. With a shorter `lst`, `lft`, `float_dyn` or (for EFT, algorithmes.py:113) `est` list the source raises IndexError; that error path is modelled one level up, by GetOrderedActivities.
- PriorityRules.PriorityAlgorithms.SortBy and PriorityRules.PriorityAlgorithms.GetOrderedActivities: require `Supports(rule)`; the IndexError of a short `lst`, `lft` or `float_dyn` list, or of short skill rows for TIMROS, is not modelled as a failure.
- PriorityRules.PriorityAlgorithms.constructor: requires `dur` and `est`, when present, to hold at least `nActs` entries. Shorter lists raise IndexError in the `eft` list comprehension (paste.py:31); that error is not modelled.
- PriorityRanker.AlgorithmesPriorite.constructor: requires `dur` to hold at least `nActs` entries. A shorter list raises IndexError in the weight recursion that `__init__` runs (algorithmes.py:24, 39, 42); that error is not modelled. The KeyError for a missing `nActs` or `precedence_graph` (algorithmes.py:11, 13) is not modelled either: the instance record always holds both, and an absent graph there stands for an empty one, which `algorithmes.py` would refuse.
- TemporalMetrics.ComputeTemporalMetrics: requires `dur`, when present, to hold at least `nActs` entries. A shorter list raises IndexError (paste.py:436, 447); that error is not modelled.
- TextInts.ParseInt, TextInts.Words: the digits are ASCII only. `int()` also accepts `_` between digits (`"1_000"`) and any Unicode decimal digit; the model rejects those tokens. The separators are those of `str.split()`, ASCII and Unicode white space alike.
- PriorityRules.PriorityAlgorithms.AllPriorityOrders: requires every rule to be supported, since an IndexError from one rule would abort the whole loop in the source.
- The accumulator `total_successors` of `_count_total_successors` is never read. The model returns the size of the visited set, which is what the source returns.
- TopoOrder.RespectPrecedence: `list(remaining)` lists a set in an order Python does not specify. The model proves only that the leftovers are the remaining activities, once each.
- Sort keys that the source computes as floats: TIMROS ratios are exact rationals, and `float('inf')` becomes an explicit infinity. Rounding is not modelled.
- Aliasing is not modelled: `_initialize_precedence_graph` and `compute_successors` add entries to the caller's own dictionary. The models return or store the completed map instead, and the caller's map is unchanged.
- TemporalMetrics.ComputeTemporalMetrics: the source writes the four lists back into the instance dictionary and returns it. The model returns them as a `Metrics` value. It requires a rank in both edge directions, which a graph built from `pred`/`succ` arrays has when acyclic (`TemporalMetrics.MirroredPredRank`). On a cyclic graph the source recursion does not end.
- TemporalMetrics.CalculateEst: the memo test `est > 0` recomputes activities whose earliest start is 0. Only the values are modelled, not the repeated work.
- TimeBounds.ComputeTimeBounds: requires predecessors to have smaller, and in-range successors larger, indices than their activity. Both passes read values written earlier in the same pass and are right only then.
- `Activity.latest_start`, `latest_finish` and `slack` may hold `float('inf')`. They are `Ext` values; no other float arithmetic occurs.
- GreedyScheduler.ScheduleWithPriority: the warning printed when the iteration limit is reached is not modelled.
- RelaxationScheduler.ScheduleWithProgressiveRelaxation: which level produced the schedule, and whether it is complete, are ghost results; the source returns neither.
- The machine-learning layer, plotting, cleanup scripts and the max-flow module are not part of this model.
