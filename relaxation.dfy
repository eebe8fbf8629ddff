/** The list scheduler with progressive relaxation
    (improved_scheduler.py schedule_with_progressive_relaxation). Relaxation
    levels 0 to 3 are tried in turn, each from a fresh state; at a level the
    simulated clock runs as in the single-pass scheduler, except that ready
    activities need not have reached their earliest start (an activity is
    placed at max(now, earliest start), and the clock moves there), an
    unknown rule leaves the ready list in list order, and a level is given up
    after more than 1000 consecutive steps without a commit. The first level
    that commits every activity wins; otherwise level 3's partial schedule is
    returned, with no flag saying so. */
module RelaxationScheduler {
  import opened Wrappers
  import opened Project
  import opened IdLists
  import opened Intervals
  import opened Schedules
  import opened RelaxedMatcher
  import opened ReadyOrder
  import opened GreedyScheduler

  const MaxStagnation := 1000
  const TopLevel := 3

  /** Where an activity is placed when tried at clock `now`. */
  function StartFor(now: int, a: Activity): (s: int)
    ensures s >= now && s >= a.earliestStart
    ensures s == now || s == a.earliestStart
  {
    if now >= a.earliestStart then now else a.earliestStart
  }

  /** The state of one run at one relaxation level. */
  datatype RunState = RunState(now: int, completed: set<int>, cal: Calendar, schedule: seq<Entry>, stagnation: nat)

  function Fresh(): RunState
  {
    RunState(0, {}, map[], [], 0)
  }

  /** The run invariant: a valid schedule whose ids are `completed`, recorded
      in the calendar, no start after the clock, and below level 3 distinct
      existing resources per entry. */
  ghost predicate StateOk(acts: seq<Activity>, res: seq<Resource>, level: int, s: RunState, positions: seq<int>)
  {
    Progress(acts, s.schedule, positions, s.completed, s.cal, s.now) &&
    (level < TopLevel ==> StaffedByDistinct(res, s.schedule))
  }

  function Min(x: int, y: int): (m: int)
    ensures m <= x && m <= y && (m == x || m == y)
  {
    if x <= y then x else y
  }

  /** The clock advance when nothing fits: the source takes the earliest busy
      end after `now`, but starts from now + 1, and every such end is at
      least now + 1, so the clock always moves by exactly one. */
  method NextTime(cal: Calendar, now: int) returns (next: int)
    ensures next == now + 1
    ensures forall r, k :: r in cal && 0 <= k < |cal[r]| && cal[r][k].end > now ==> next <= cal[r][k].end
  {
    next := now + 1;
    var keys := cal.Keys;
    while keys != {}
      invariant keys <= cal.Keys && next == now + 1
      invariant forall r, k :: r in cal && r !in keys && 0 <= k < |cal[r]| && cal[r][k].end > now ==>
        next <= cal[r][k].end
      decreases |keys|
    {
      ghost var some := Pick(keys);
      var key :| key in keys;
      var ivs := cal[key];
      for k := 0 to |ivs|
        invariant next == now + 1
        invariant forall j :: 0 <= j < k && ivs[j].end > now ==> next <= ivs[j].end
      {
        if ivs[k].end > now {
          next := Min(next, ivs[k].end);
        }
      }
      keys := keys - {key};
    }
  }

  /** The first position from `k` on in `order` whose activity the matcher
      can staff at its start time, with the resources it gets. */
  ghost function FirstFitFrom(acts: seq<Activity>, res: seq<Resource>, order: seq<int>, now: int, cal: Calendar,
                              level: int, k: nat): (r: Option<(int, seq<int>)>)
    requires InRange(acts, order)
    ensures r.Some? ==> k <= r.value.0 < |order|
    decreases |order| - k
  {
    if k >= |order| then None
    else match RelaxedMatch(res, acts[order[k]], StartFor(now, acts[order[k]]), cal, level)
      case Some(ids) => Some((k, ids))
      case None => FirstFitFrom(acts, res, order, now, cal, level, k + 1)
  }

  /** The first activity, in `order`, that the matcher can staff at its
      start time, with its resources. */
  method FirstFitRelaxed(acts: seq<Activity>, res: seq<Resource>, order: seq<int>, now: int, cal: Calendar,
                         level: int)
    returns (found: bool, idx: int, ids: seq<int>)
    requires InRange(acts, order)
    ensures found ==> (0 <= idx < |order| &&
      RelaxedMatch(res, acts[order[idx]], StartFor(now, acts[order[idx]]), cal, level) == Some(ids))
    ensures found ==> forall m :: 0 <= m < idx ==>
      RelaxedMatch(res, acts[order[m]], StartFor(now, acts[order[m]]), cal, level).None?
    ensures !found ==> forall k :: 0 <= k < |order| ==>
      RelaxedMatch(res, acts[order[k]], StartFor(now, acts[order[k]]), cal, level).None?
    ensures found ==> forall x :: x in ids ==>
      TimeFree(cal, x, StartFor(now, acts[order[idx]]), StartFor(now, acts[order[idx]]) + acts[order[idx]].duration)
    ensures found && level < TopLevel && ResourcesIndexed(res) ==>
      NoDup(ids) && forall x :: x in ids ==> 0 <= x < |res|
    ensures FirstFitFrom(acts, res, order, now, cal, level, 0) == if found then Some((idx, ids)) else None
  {
    for k := 0 to |order|
      invariant forall m :: 0 <= m < k ==>
        RelaxedMatch(res, acts[order[m]], StartFor(now, acts[order[m]]), cal, level).None?
      invariant FirstFitFrom(acts, res, order, now, cal, level, 0) == FirstFitFrom(acts, res, order, now, cal, level, k)
    {
      var a := acts[order[k]];
      var ok, staff := FindAvailableResources(res, a, StartFor(now, a), cal, level);
      if ok {
        RelaxedMatchFree(res, a, StartFor(now, a), cal, level);
        if level < TopLevel && ResourcesIndexed(res) {
          RelaxedMatchDistinct(res, a, StartFor(now, a), cal, level);
        }
        return true, k, staff;
      }
    }
    return false, 0, [];
  }

  /** The state after committing `a`, staffed by `ids`, at max(now,
      earliest start), with the clock moved there. */
  function Committed(s: RunState, a: Activity, ids: seq<int>): RunState
  {
    var start := StartFor(s.now, a);
    RunState(start, s.completed + {a.id}, Record(s.cal, ids, Interval(start, start + a.duration)),
             s.schedule + [Entry(a.id, start, start + a.duration, ids)], 0)
  }

  lemma CommitKeepsStateOk(acts: seq<Activity>, res: seq<Resource>, level: int, s: RunState, positions: seq<int>,
                           pos: int, start: int, ids: seq<int>, cal2: Calendar)
    requires StateOk(acts, res, level, s, positions)
    requires 0 <= pos < |acts| && IsReady(acts[pos], s.completed, s.now, false)
    requires s.now <= start && acts[pos].earliestStart <= start
    requires forall x :: x in ids ==> TimeFree(s.cal, x, start, start + acts[pos].duration)
    requires level < TopLevel && ResourcesIndexed(res) ==> NoDup(ids) && forall x :: x in ids ==> 0 <= x < |res|
    requires cal2 == Record(s.cal, ids, Interval(start, start + acts[pos].duration))
    ensures var e := Entry(acts[pos].id, start, start + acts[pos].duration, ids);
      StateOk(acts, res, level, RunState(start, s.completed + {acts[pos].id}, cal2, s.schedule + [e], 0), positions + [pos])
  {
    CommitKeepsProgress(acts, s.schedule, positions, s.completed, s.cal, s.now, start, pos, ids, cal2);
    if level < TopLevel {
      StaffedAppend(res, s.schedule, Entry(acts[pos].id, start, start + acts[pos].duration, ids));
    }
  }

  /** Commits the ready activity at `pos`, staffed by `ids`, at
      max(now, earliest start), and moves the clock there. */
  method CommitRelaxed(acts: seq<Activity>, res: seq<Resource>, level: int, s: RunState, ghost positions: seq<int>,
                       pos: int, ids: seq<int>)
    returns (s': RunState, ghost positions': seq<int>)
    requires StateOk(acts, res, level, s, positions)
    requires 0 <= pos < |acts| && IsReady(acts[pos], s.completed, s.now, false)
    requires forall x :: x in ids ==>
      TimeFree(s.cal, x, StartFor(s.now, acts[pos]), StartFor(s.now, acts[pos]) + acts[pos].duration)
    requires level < TopLevel && ResourcesIndexed(res) ==> NoDup(ids) && forall x :: x in ids ==> 0 <= x < |res|
    ensures StateOk(acts, res, level, s', positions')
    ensures var start := StartFor(s.now, acts[pos]);
      s'.now == start && s'.completed == s.completed + {acts[pos].id} && s'.stagnation == 0 &&
      s'.schedule == s.schedule + [Entry(acts[pos].id, start, start + acts[pos].duration, ids)]
    ensures s' == Committed(s, acts[pos], ids)
  {
    var start := StartFor(s.now, acts[pos]);
    var cal2 := RecordBusy(s.cal, ids, start, start + acts[pos].duration);
    var now' := if s.now >= start then s.now else start;
    var e := Entry(acts[pos].id, start, start + acts[pos].duration, ids);
    s' := RunState(now', s.completed + {acts[pos].id}, cal2, s.schedule + [e], 0);
    positions' := positions + [pos];
    assert s' == RunState(start, s.completed + {acts[pos].id}, cal2, s.schedule + [e], 0);
    CommitKeepsStateOk(acts, res, level, s, positions, pos, start, ids, cal2);
  }

  /** What one pass of the inner loop does to the run state: the first
      ready activity, in rule order, that the level's matcher can staff is
      committed at max(now, earliest start) with the clock moved there;
      if none can be, the clock moves on by one and the step is stagnant. */
  ghost function StepSpec(acts: seq<Activity>, res: seq<Resource>, name: string, level: int, s: RunState): RunState
  {
    var ready := ReadyUpTo(acts, s.completed, s.now, false, |acts|);
    var order := OrderReadyRelaxed(acts, ready, name);
    OrderRelaxedInRange(acts, ready, name);
    match FirstFitFrom(acts, res, order, s.now, s.cal, level, 0)
    case Some((k, ids)) => Committed(s, acts[order[k]], ids)
    case None => s.(now := s.now + 1, stagnation := s.stagnation + 1)
  }

  lemma StepSpecCommits(acts: seq<Activity>, res: seq<Resource>, name: string, level: int, s: RunState,
                        order: seq<int>, k: int, ids: seq<int>)
    requires order == OrderReadyRelaxed(acts, ReadyUpTo(acts, s.completed, s.now, false, |acts|), name)
    requires InRange(acts, order)
    requires FirstFitFrom(acts, res, order, s.now, s.cal, level, 0) == Some((k, ids))
    ensures 0 <= k < |order| && StepSpec(acts, res, name, level, s) == Committed(s, acts[order[k]], ids)
  {
  }

  lemma StepSpecIdles(acts: seq<Activity>, res: seq<Resource>, name: string, level: int, s: RunState,
                      order: seq<int>)
    requires order == OrderReadyRelaxed(acts, ReadyUpTo(acts, s.completed, s.now, false, |acts|), name)
    requires InRange(acts, order)
    requires FirstFitFrom(acts, res, order, s.now, s.cal, level, 0) == None
    ensures StepSpec(acts, res, name, level, s) == s.(now := s.now + 1, stagnation := s.stagnation + 1)
  {
  }

  /** One pass of the inner loop: collect the ready activities, order them
      by the rule, commit the first one the matcher can staff (placed at
      max(now, earliest start), the clock moving there), or else advance the
      clock by one and count a stagnant step. */
  method Step(acts: seq<Activity>, res: seq<Resource>, name: string, level: int, s: RunState,
              ghost positions: seq<int>)
    returns (s': RunState, ghost positions': seq<int>, committed: bool)
    requires StateOk(acts, res, level, s, positions)
    ensures StateOk(acts, res, level, s', positions')
    ensures s' == StepSpec(acts, res, name, level, s)
    ensures s.now <= s'.now
    ensures committed ==>
      |s'.schedule| == |s.schedule| + 1 && s'.schedule[..|s.schedule|] == s.schedule &&
      |s'.completed| == |s.completed| + 1 && s'.stagnation == 0 &&
      s'.now == s'.schedule[|s.schedule|].start
    ensures !committed ==>
      s' == s.(now := s.now + 1, stagnation := s.stagnation + 1) && positions' == positions &&
      forall i :: 0 <= i < |acts| && IsReady(acts[i], s.completed, s.now, false) ==>
        RelaxedMatch(res, acts[i], StartFor(s.now, acts[i]), s.cal, level).None?
  {
    var ready := CollectReady(acts, s.completed, s.now, false);
    var order := OrderReadyRelaxed(acts, ready, name);
    assert InRange(acts, order) && multiset(order) == multiset(ready) by {
      if KnownRule(name) {
        OrderReadySpec(acts, ready, name);
      }
    }
    var found, idx, ids := FirstFitRelaxed(acts, res, order, s.now, s.cal, level);
    if found {
      var pos := order[idx];
      assert IsReady(acts[pos], s.completed, s.now, false) by {
        assert pos in multiset(order);
      }
      s', positions' := CommitRelaxed(acts, res, level, s, positions, pos, ids);
      StepSpecCommits(acts, res, name, level, s, order, idx, ids);
      committed := true;
    } else {
      forall i | 0 <= i < |acts| && IsReady(acts[i], s.completed, s.now, false)
        ensures RelaxedMatch(res, acts[i], StartFor(s.now, acts[i]), s.cal, level).None?
      {
        assert i in multiset(order);
        var k :| 0 <= k < |order| && order[k] == i;
      }
      var next := NextTime(s.cal, s.now);
      s' := s.(now := next, stagnation := s.stagnation + 1);
      LaterClockKeepsStateOk(acts, res, level, s, positions, next);
      StepSpecIdles(acts, res, name, level, s, order);
      positions' := positions;
      committed := false;
    }
  }

  lemma LaterClockKeepsStateOk(acts: seq<Activity>, res: seq<Resource>, level: int, s: RunState,
                                positions: seq<int>, later: int)
    requires StateOk(acts, res, level, s, positions) && s.now <= later
    ensures StateOk(acts, res, level, s.(now := later, stagnation := s.stagnation + 1), positions)
  {
  }

  /** The activity identifiers of the list. */
  ghost function IdSet(acts: seq<Activity>): set<int>
  {
    set i | 0 <= i < |acts| :: acts[i].id
  }

  lemma {:induction false} IdSetSize(acts: seq<Activity>)
    ensures |IdSet(acts)| <= |acts|
  {
    if acts != [] {
      var init := acts[..|acts| - 1];
      IdSetSize(init);
      assert IdSet(acts) == IdSet(init) + {acts[|acts| - 1].id} by {
        forall x | x in IdSet(acts) ensures x in IdSet(init) + {acts[|acts| - 1].id} {
          var i :| 0 <= i < |acts| && acts[i].id == x;
          if i < |acts| - 1 {
            assert init[i] == acts[i];
          }
        }
        forall x | x in IdSet(init) ensures x in IdSet(acts) {
          var i :| 0 <= i < |init| && init[i].id == x;
          assert acts[i] == init[i];
        }
      }
    }
  }

  /** At most one commit per activity: `completed` never outgrows the list. */
  lemma CompletedBounded(acts: seq<Activity>, res: seq<Resource>, level: int, s: RunState, positions: seq<int>)
    requires StateOk(acts, res, level, s, positions)
    ensures |s.completed| <= |acts|
  {
    assert s.completed <= IdSet(acts) by {
      forall x | x in s.completed ensures x in IdSet(acts) {
        var k :| 0 <= k < |s.schedule| && EntryIds(s.schedule)[k] == x;
        assert EntryOk(acts, s.schedule, positions, k);
      }
    }
    IdSetSize(acts);
    assert IdSet(acts) == s.completed + (IdSet(acts) - s.completed);
    assert |IdSet(acts)| == |s.completed| + |IdSet(acts) - s.completed|;
  }

  /** The state a level's run ends in, from state `s` after `iterations`
      passes: passes go on while some activity is uncommitted and fewer
      than 10000 have run, and stop after a pass that leaves more than 1000
      consecutive stagnant steps. */
  ghost function RunFrom(acts: seq<Activity>, res: seq<Resource>, name: string, level: int, s: RunState,
                         iterations: nat): RunState
    decreases MaxIterations - iterations
  {
    if |s.completed| < |acts| && iterations < MaxIterations then
      var s' := StepSpec(acts, res, name, level, s);
      if s'.stagnation > MaxStagnation then s' else RunFrom(acts, res, name, level, s', iterations + 1)
    else s
  }

  lemma RunFromUnfolds(acts: seq<Activity>, res: seq<Resource>, name: string, level: int, s: RunState,
                       iterations: nat)
    requires |s.completed| < |acts| && iterations < MaxIterations
    ensures var s' := StepSpec(acts, res, name, level, s);
      RunFrom(acts, res, name, level, s, iterations) ==
        if s'.stagnation > MaxStagnation then s' else RunFrom(acts, res, name, level, s', iterations + 1)
  {
  }

  lemma RunFromStops(acts: seq<Activity>, res: seq<Resource>, name: string, level: int, s: RunState,
                     iterations: nat)
    requires |s.completed| >= |acts| || iterations >= MaxIterations
    ensures RunFrom(acts, res, name, level, s, iterations) == s
  {
  }

  /** The final state of the run at `level`, from a fresh state. */
  ghost function LevelRun(acts: seq<Activity>, res: seq<Resource>, name: string, level: int): RunState
  {
    RunFrom(acts, res, name, level, Fresh(), 0)
  }

  /** The run at `level` commits every activity. */
  ghost predicate LevelComplete(acts: seq<Activity>, res: seq<Resource>, name: string, level: int)
  {
    |LevelRun(acts, res, name, level).completed| == |acts|
  }

  /** One iteration of a level's loop: a step, seen from the run's
      point of view. */
  method LoopPass(acts: seq<Activity>, res: seq<Resource>, name: string, level: int, s: RunState,
                  ghost positions: seq<int>, iterations: nat)
    returns (s': RunState, ghost positions': seq<int>)
    requires StateOk(acts, res, level, s, positions)
    requires |s.completed| < |acts| && iterations < MaxIterations
    ensures StateOk(acts, res, level, s', positions')
    ensures s'.stagnation <= s.stagnation + 1
    ensures RunFrom(acts, res, name, level, s, iterations) ==
      if s'.stagnation > MaxStagnation then s' else RunFrom(acts, res, name, level, s', iterations + 1)
  {
    RunFromUnfolds(acts, res, name, level, s, iterations);
    var committed;
    s', positions', committed := Step(acts, res, name, level, s, positions);
  }

  /** The loop of one relaxation level, from state `s0` after `iterations0`
      passes: it ends in the state the run from there specifies, for one of
      the three reasons. */
  method RunLoopFrom(acts: seq<Activity>, res: seq<Resource>, name: string, level: int, s0: RunState,
                     ghost positions0: seq<int>, iterations0: nat)
    returns (s: RunState, ghost positions: seq<int>, iterations: nat)
    requires StateOk(acts, res, level, s0, positions0)
    requires iterations0 <= MaxIterations && s0.stagnation <= MaxStagnation
    ensures StateOk(acts, res, level, s, positions)
    ensures s == RunFrom(acts, res, name, level, s0, iterations0)
    ensures iterations <= MaxIterations && s.stagnation <= MaxStagnation + 1
    ensures |s.completed| < |acts| ==> iterations == MaxIterations || s.stagnation == MaxStagnation + 1
  {
    s, positions, iterations := s0, positions0, iterations0;
    ghost var target := RunFrom(acts, res, name, level, s0, iterations0);
    while |s.completed| < |acts| && iterations < MaxIterations
      invariant StateOk(acts, res, level, s, positions)
      invariant iterations <= MaxIterations && s.stagnation <= MaxStagnation
      invariant RunFrom(acts, res, name, level, s, iterations) == target
      decreases MaxIterations - iterations
    {
      s, positions := LoopPass(acts, res, name, level, s, positions, iterations);
      iterations := iterations + 1;
      if s.stagnation > MaxStagnation {
        return;
      }
    }
    RunFromStops(acts, res, name, level, s, iterations);
  }

  /** The loop of one relaxation level, from a fresh state. */
  method RunLoop(acts: seq<Activity>, res: seq<Resource>, name: string, level: int)
    returns (s: RunState, ghost positions: seq<int>, iterations: nat)
    ensures StateOk(acts, res, level, s, positions)
    ensures s == LevelRun(acts, res, name, level)
    ensures iterations <= MaxIterations && s.stagnation <= MaxStagnation + 1
    ensures |s.completed| < |acts| ==> iterations == MaxIterations || s.stagnation == MaxStagnation + 1
  {
    s, positions, iterations := RunLoopFrom(acts, res, name, level, Fresh(), [], 0);
  }

  /** One relaxation level from a fresh state, until every activity is
      committed, 10000 iterations have run, or more than 1000 consecutive
      steps commit nothing. */
  method RunLevel(acts: seq<Activity>, res: seq<Resource>, name: string, level: int)
    returns (complete: bool, schedule: seq<Entry>, ghost positions: seq<int>, iterations: nat,
             stagnation: nat)
    ensures ValidSchedule(acts, schedule, positions)
    ensures level < TopLevel ==> StaffedByDistinct(res, schedule)
    ensures complete <==> |schedule| == |acts|
    ensures iterations <= MaxIterations && stagnation <= MaxStagnation + 1
    ensures !complete ==> iterations == MaxIterations || stagnation == MaxStagnation + 1
    ensures schedule == LevelRun(acts, res, name, level).schedule
    ensures complete <==> LevelComplete(acts, res, name, level)
  {
    var s;
    s, positions, iterations := RunLoop(acts, res, name, level);
    CompletedBounded(acts, res, level, s, positions);
    stagnation := s.stagnation;
    schedule := s.schedule;
    complete := |s.completed| == |acts|;
  }

  lemma IncompleteUpTo(acts: seq<Activity>, res: seq<Resource>, name: string, lv: int)
    requires forall l :: 0 <= l < lv ==> !LevelComplete(acts, res, name, l)
    requires !LevelComplete(acts, res, name, lv)
    ensures forall l :: 0 <= l < lv + 1 ==> !LevelComplete(acts, res, name, l)
  {
  }

  /** Tries levels 0, 1, 2, 3 in turn and returns the makespan and schedule
      of the first level that commits every activity, or else those of
      level 3. The ghost results say which level produced the schedule and
      whether it is complete: every level below it was incomplete. */
  method ScheduleWithProgressiveRelaxation(acts: seq<Activity>, res: seq<Resource>, name: string)
    returns (makespan: int, schedule: seq<Entry>, ghost positions: seq<int>, ghost level: nat,
             ghost complete: bool)
    ensures makespan == MaxEnd(schedule)
    ensures ValidSchedule(acts, schedule, positions)
    ensures level <= TopLevel
    ensures level < TopLevel ==> StaffedByDistinct(res, schedule)
    ensures complete <==> |schedule| == |acts|
    ensures !complete ==> level == TopLevel
    ensures schedule == LevelRun(acts, res, name, level).schedule
    ensures complete <==> LevelComplete(acts, res, name, level)
    ensures forall l :: 0 <= l < level ==> !LevelComplete(acts, res, name, l)
  {
    schedule, positions, level, complete := [], [], 0, false;
    for lv := 0 to TopLevel + 1
      invariant lv > 0 ==> (level == lv - 1 && ValidSchedule(acts, schedule, positions) &&
        (level < TopLevel ==> StaffedByDistinct(res, schedule)) && !complete && |schedule| != |acts| &&
        schedule == LevelRun(acts, res, name, level).schedule)
      invariant forall l :: 0 <= l < lv ==> !LevelComplete(acts, res, name, l)
    {
      var done, iterations, stagnation;
      done, schedule, positions, iterations, stagnation := RunLevel(acts, res, name, lv);
      level, complete := lv, done;
      if done {
        makespan := MaxEnd(schedule);
        return;
      }
      IncompleteUpTo(acts, res, name, lv);
    }
    makespan := MaxEnd(schedule);
  }

  // ---- what a complete schedule means ----

  /** With activities numbered by position, a valid schedule with one entry
      per activity commits every activity. */
  lemma CompleteCoversAll(acts: seq<Activity>, schedule: seq<Entry>, positions: seq<int>)
    requires WellIndexed(acts) && ValidSchedule(acts, schedule, positions) && |schedule| == |acts|
    ensures forall i :: 0 <= i < |acts| ==> i in EntryIds(schedule)
  {
    var ids := EntryIds(schedule);
    var got := Elems(ids);
    var all := IdSet(acts);
    NoDupSetSize(ids);
    IdSetSize(acts);
    assert got <= all by {
      forall x | x in got ensures x in all {
        var k :| 0 <= k < |ids| && ids[k] == x;
        assert EntryOk(acts, schedule, positions, k);
      }
    }
    assert all == got + (all - got);
    assert |all - got| == 0;
    forall i | 0 <= i < |acts| ensures i in ids {
      assert acts[i].id == i;
      assert i in all;
    }
  }
}
