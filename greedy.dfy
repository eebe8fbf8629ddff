/** The single-pass list scheduler (msrcpsp_final.py schedule_with_priority):
    a simulated clock; at each step the ready activities are ordered by the
    rule, the first one the strict matcher can staff at the current time is
    committed, and if none fits the clock advances by one. An activity counts
    as completed as soon as it is committed, so the schedule puts every
    activity after its predecessors in commit order, not after their end. */
module GreedyScheduler {
  import opened Wrappers
  import opened Project
  import opened IdLists
  import opened Intervals
  import opened Schedules
  import opened StrictMatcher
  import opened ReadyOrder

  const MaxIterations := 10000

  /** The first position from `k` on in `order` whose activity the strict
      matcher can staff at `now`, with the resources it gets. */
  ghost function FitFrom(acts: seq<Activity>, res: seq<Resource>, order: seq<int>, now: int, cal: Calendar,
                         k: nat): (r: Option<(int, seq<int>)>)
    requires InRange(acts, order)
    ensures r.Some? ==> k <= r.value.0 < |order|
    decreases |order| - k
  {
    if k >= |order| then None
    else match StrictMatch(res, acts[order[k]], now, cal)
      case Some(ids) => Some((k, ids))
      case None => FitFrom(acts, res, order, now, cal, k + 1)
  }

  /** The first activity, in `order`, that the strict matcher can staff at
      `now`, with its resources. */
  method FirstFit(acts: seq<Activity>, res: seq<Resource>, order: seq<int>, now: int, cal: Calendar)
    returns (found: bool, idx: int, ids: seq<int>)
    requires InRange(acts, order)
    ensures found ==> 0 <= idx < |order| && StrictMatch(res, acts[order[idx]], now, cal) == Some(ids)
    ensures found ==> forall m :: 0 <= m < idx ==> StrictMatch(res, acts[order[m]], now, cal).None?
    ensures !found ==> forall k :: 0 <= k < |order| ==> StrictMatch(res, acts[order[k]], now, cal).None?
    ensures found ==> forall x :: x in ids ==> TimeFree(cal, x, now, now + acts[order[idx]].duration)
    ensures found && ResourcesIndexed(res) ==> NoDup(ids) && forall x :: x in ids ==> 0 <= x < |res|
    ensures FitFrom(acts, res, order, now, cal, 0) == if found then Some((idx, ids)) else None
  {
    for k := 0 to |order|
      invariant forall m :: 0 <= m < k ==> StrictMatch(res, acts[order[m]], now, cal).None?
      invariant FitFrom(acts, res, order, now, cal, 0) == FitFrom(acts, res, order, now, cal, k)
    {
      var ok, staff := CanScheduleActivity(res, acts[order[k]], now, cal);
      if ok {
        StrictMatchFree(res, acts[order[k]], now, cal);
        if ResourcesIndexed(res) {
          StrictMatchSound(res, acts[order[k]], now, cal);
        }
        return true, k, staff;
      }
    }
    return false, 0, [];
  }

  /** Entry k of the schedule is activity positions[k]: it lasts its
      duration from a start no earlier than its earliest start, and every
      predecessor was committed before it. */
  ghost predicate EntryOk(acts: seq<Activity>, schedule: seq<Entry>, positions: seq<int>, k: int)
    requires 0 <= k < |schedule| == |positions|
  {
    0 <= positions[k] < |acts| && acts[positions[k]].id == schedule[k].activityId &&
    acts[positions[k]].earliestStart <= schedule[k].start &&
    schedule[k].end == schedule[k].start + acts[positions[k]].duration &&
    forall p :: p in acts[positions[k]].predecessors ==> p in EntryIds(schedule[..k])
  }

  /** What a schedule built by either list scheduler promises: every entry
      as above, each activity at most once, starts in commit order, and no
      resource in two overlapping entries. */
  ghost predicate ValidSchedule(acts: seq<Activity>, schedule: seq<Entry>, positions: seq<int>)
  {
    |positions| == |schedule| &&
    (forall k :: 0 <= k < |schedule| ==> EntryOk(acts, schedule, positions, k)) &&
    NoDup(EntryIds(schedule)) &&
    (forall j, k :: 0 <= j < k < |schedule| ==> schedule[j].start <= schedule[k].start) &&
    Exclusive(schedule)
  }

  /** Resources numbered by position give each entry distinct, existing resources. */
  ghost predicate StaffedByDistinct(res: seq<Resource>, schedule: seq<Entry>)
  {
    ResourcesIndexed(res) ==> forall k :: 0 <= k < |schedule| ==>
      NoDup(schedule[k].resources) && forall x :: x in schedule[k].resources ==> 0 <= x < |res|
  }

  /** A valid schedule, `completed` its set of ids, the calendar recording
      it, and the clock no earlier than any start. */
  ghost predicate Progress(acts: seq<Activity>, schedule: seq<Entry>, positions: seq<int>,
                           completed: set<int>, cal: Calendar, now: int)
  {
    ValidSchedule(acts, schedule, positions) &&
    (forall x :: x in completed <==> x in EntryIds(schedule)) && |completed| == |schedule| &&
    Recorded(schedule, cal) &&
    (forall k :: 0 <= k < |schedule| ==> schedule[k].start <= now)
  }

  /** The loop state: progress so far, each entry staffed by distinct resources. */
  ghost predicate LoopState(acts: seq<Activity>, res: seq<Resource>, schedule: seq<Entry>, positions: seq<int>,
                            completed: set<int>, cal: Calendar, now: int)
  {
    Progress(acts, schedule, positions, completed, cal, now) && StaffedByDistinct(res, schedule)
  }

  /** Committing a ready activity at `start`, on resources free over its
      interval, and recording it, keeps the progress invariant with the
      clock moved to `start`. */
  lemma CommitKeepsProgress(acts: seq<Activity>, schedule: seq<Entry>, positions: seq<int>,
                            completed: set<int>, cal: Calendar, now: int, start: int, pos: int,
                            ids: seq<int>, cal2: Calendar)
    requires Progress(acts, schedule, positions, completed, cal, now)
    requires 0 <= pos < |acts| && IsReady(acts[pos], completed, now, false)
    requires now <= start && acts[pos].earliestStart <= start
    requires forall x :: x in ids ==> TimeFree(cal, x, start, start + acts[pos].duration)
    requires cal2 == Record(cal, ids, Interval(start, start + acts[pos].duration))
    ensures var e := Entry(acts[pos].id, start, start + acts[pos].duration, ids);
      Progress(acts, schedule + [e], positions + [pos], completed + {acts[pos].id}, cal2, start)
  {
    var a := acts[pos];
    var e := Entry(a.id, start, start + a.duration, ids);
    assert Interval(e.start, e.end) == Interval(start, start + acts[pos].duration) && e.resources == ids;
    CommitKeepsSchedule(acts, schedule, positions, completed, cal, pos, e, cal2);
    CommitKeepsBookkeeping(schedule, completed, now, e);
    assert e == Entry(acts[pos].id, start, start + acts[pos].duration, ids);
  }

  lemma CommitKeepsState(acts: seq<Activity>, res: seq<Resource>, schedule: seq<Entry>, positions: seq<int>,
                         completed: set<int>, cal: Calendar, now: int, start: int, pos: int,
                         ids: seq<int>, cal2: Calendar)
    requires LoopState(acts, res, schedule, positions, completed, cal, now)
    requires 0 <= pos < |acts| && IsReady(acts[pos], completed, now, false)
    requires now <= start && acts[pos].earliestStart <= start
    requires forall x :: x in ids ==> TimeFree(cal, x, start, start + acts[pos].duration)
    requires ResourcesIndexed(res) ==> NoDup(ids) && forall x :: x in ids ==> 0 <= x < |res|
    requires cal2 == Record(cal, ids, Interval(start, start + acts[pos].duration))
    ensures var e := Entry(acts[pos].id, start, start + acts[pos].duration, ids);
      LoopState(acts, res, schedule + [e], positions + [pos], completed + {acts[pos].id}, cal2, start)
  {
    CommitKeepsProgress(acts, schedule, positions, completed, cal, now, start, pos, ids, cal2);
    StaffedAppend(res, schedule, Entry(acts[pos].id, start, start + acts[pos].duration, ids));
  }

  /** The schedule half of a commit: validity, exclusivity and the calendar. */
  lemma CommitKeepsSchedule(acts: seq<Activity>, schedule: seq<Entry>, positions: seq<int>, completed: set<int>,
                            cal: Calendar, pos: int, e: Entry, cal2: Calendar)
    requires ValidSchedule(acts, schedule, positions) && Recorded(schedule, cal)
    requires forall x :: x in completed <==> x in EntryIds(schedule)
    requires forall k :: 0 <= k < |schedule| ==> schedule[k].start <= e.start
    requires 0 <= pos < |acts| && acts[pos].id !in completed && AllDone(acts[pos].predecessors, completed)
    requires e.activityId == acts[pos].id && acts[pos].earliestStart <= e.start
    requires e.end == e.start + acts[pos].duration
    requires forall x :: x in e.resources ==> TimeFree(cal, x, e.start, e.end)
    requires cal2 == Record(cal, e.resources, Interval(e.start, e.end))
    ensures ValidSchedule(acts, schedule + [e], positions + [pos]) && Recorded(schedule + [e], cal2)
  {
    RecordAppended(cal, e.resources, Interval(e.start, e.end));
    CommitKeepsExclusive(schedule, cal, e, cal2);
    assert IsReady(acts[pos], completed, e.start, false);
    ValidAppend(acts, schedule, positions, completed, pos, e);
  }

  /** The bookkeeping half of a commit: `completed` and the clock bound. */
  lemma CommitKeepsBookkeeping(schedule: seq<Entry>, completed: set<int>, now: int, e: Entry)
    requires (forall x :: x in completed <==> x in EntryIds(schedule)) && |completed| == |schedule|
    requires e.activityId !in completed && now <= e.start
    requires forall k :: 0 <= k < |schedule| ==> schedule[k].start <= now
    ensures (forall x :: x in completed + {e.activityId} <==> x in EntryIds(schedule + [e]))
    ensures |completed + {e.activityId}| == |schedule + [e]|
    ensures forall k :: 0 <= k < |schedule + [e]| ==> (schedule + [e])[k].start <= e.start
  {
    EntryIdsSnoc(schedule, e);
    CompletedAppend(completed, EntryIds(schedule), e.activityId);
    StartsBounded(schedule, e);
  }

  lemma LaterClockKeepsState(acts: seq<Activity>, res: seq<Resource>, schedule: seq<Entry>,
                              positions: seq<int>, completed: set<int>, cal: Calendar, now: int, later: int)
    requires LoopState(acts, res, schedule, positions, completed, cal, now) && now <= later
    ensures LoopState(acts, res, schedule, positions, completed, cal, later)
  {
  }

  lemma CompletedAppend(completed: set<int>, ids: seq<int>, id: int)
    requires (forall x :: x in completed <==> x in ids) && |completed| == |ids| && id !in completed
    ensures (forall x :: x in completed + {id} <==> x in ids + [id]) && |completed + {id}| == |ids| + 1
  {
  }

  lemma StartsBounded(schedule: seq<Entry>, e: Entry)
    requires forall k :: 0 <= k < |schedule| ==> schedule[k].start <= e.start
    ensures forall k :: 0 <= k < |schedule + [e]| ==> (schedule + [e])[k].start <= e.start
  {
  }

  lemma StaffedAppend(res: seq<Resource>, schedule: seq<Entry>, e: Entry)
    requires StaffedByDistinct(res, schedule)
    requires ResourcesIndexed(res) ==> NoDup(e.resources) && forall x :: x in e.resources ==> 0 <= x < |res|
    ensures StaffedByDistinct(res, schedule + [e])
  {
    var s2 := schedule + [e];
    if ResourcesIndexed(res) {
      forall k | 0 <= k < |s2|
        ensures NoDup(s2[k].resources) && forall x :: x in s2[k].resources ==> 0 <= x < |res|
      {
        if k < |schedule| {
          assert s2[k] == schedule[k];
        }
      }
    }
  }

  /** Appending the entry of a ready activity, starting no earlier than its
      earliest start nor than any earlier entry, keeps a schedule valid. */
  lemma ValidAppend(acts: seq<Activity>, schedule: seq<Entry>, positions: seq<int>,
                    completed: set<int>, pos: int, e: Entry)
    requires ValidSchedule(acts, schedule, positions) && Exclusive(schedule + [e])
    requires forall x :: x in completed <==> x in EntryIds(schedule)
    requires 0 <= pos < |acts| && IsReady(acts[pos], completed, e.start, false)
    requires e.activityId == acts[pos].id && acts[pos].earliestStart <= e.start
    requires e.end == e.start + acts[pos].duration
    requires forall k :: 0 <= k < |schedule| ==> schedule[k].start <= e.start
    ensures ValidSchedule(acts, schedule + [e], positions + [pos])
  {
    var a := acts[pos];
    var s2 := schedule + [e];
    var p2 := positions + [pos];
    EntryIdsSnoc(schedule, e);
    NoDupAppend(EntryIds(schedule), [a.id]);
    forall k | 0 <= k < |s2|
      ensures EntryOk(acts, s2, p2, k)
    {
      if k < |schedule| {
        assert s2[..k] == schedule[..k];
        assert EntryOk(acts, schedule, positions, k);
      } else {
        assert s2[..k] == schedule;
        forall p | p in a.predecessors ensures p in EntryIds(schedule) {
          var m :| 0 <= m < |a.predecessors| && a.predecessors[m] == p;
        }
      }
    }
  }

  /** Commits the ready activity at `pos`, staffed by `ids`, at the current time. */
  method Commit(acts: seq<Activity>, res: seq<Resource>, schedule: seq<Entry>, ghost positions: seq<int>,
                completed: set<int>, cal: Calendar, now: int, pos: int, ids: seq<int>)
    returns (schedule': seq<Entry>, ghost positions': seq<int>, completed': set<int>, cal': Calendar)
    requires LoopState(acts, res, schedule, positions, completed, cal, now)
    requires 0 <= pos < |acts| && IsReady(acts[pos], completed, now, true)
    requires forall x :: x in ids ==> TimeFree(cal, x, now, now + acts[pos].duration)
    requires ResourcesIndexed(res) ==> NoDup(ids) && forall x :: x in ids ==> 0 <= x < |res|
    ensures LoopState(acts, res, schedule', positions', completed', cal', now)
    ensures schedule' == schedule + [Entry(acts[pos].id, now, now + acts[pos].duration, ids)]
    ensures completed' == completed + {acts[pos].id}
    ensures cal' == Record(cal, ids, Interval(now, now + acts[pos].duration))
  {
    var a := acts[pos];
    var end := now + a.duration;
    cal' := RecordBusy(cal, ids, now, end);
    assert IsReady(a, completed, now, false);
    CommitKeepsState(acts, res, schedule, positions, completed, cal, now, now, pos, ids, cal');
    schedule' := schedule + [Entry(a.id, now, end, ids)];
    positions' := positions + [pos];
    completed' := completed + {a.id};
  }

  /** The scheduler's state between two passes of its loop. */
  datatype PassState = PassState(now: int, completed: set<int>, cal: Calendar, schedule: seq<Entry>)

  /** What one pass of the loop does: the ready activities (ES reached) are
      ordered by the rule, the first one the strict matcher can staff at
      `now` is committed at `now`; if none can be, the clock moves on by
      exactly one. */
  ghost function PassSpec(acts: seq<Activity>, res: seq<Resource>, name: string, g: PassState): PassState
  {
    var ready := ReadyUpTo(acts, g.completed, g.now, true, |acts|);
    OrderReadySpec(acts, ready, name);
    var order := OrderReady(acts, ready, name);
    match FitFrom(acts, res, order, g.now, g.cal, 0)
    case Some((k, ids)) => CommittedAt(g, acts[order[k]], ids)
    case None => g.(now := g.now + 1)
  }

  /** The state after committing `a`, staffed by `ids`, at `now`. */
  function CommittedAt(g: PassState, a: Activity, ids: seq<int>): PassState
  {
    PassState(g.now, g.completed + {a.id}, Record(g.cal, ids, Interval(g.now, g.now + a.duration)),
              g.schedule + [Entry(a.id, g.now, g.now + a.duration, ids)])
  }

  /** The state the loop ends in from `g` after `iterations` passes, with
      the number of passes run: passes go on while some activity is
      uncommitted and fewer than 10000 have run. */
  ghost function RunFrom(acts: seq<Activity>, res: seq<Resource>, name: string, g: PassState, iterations: nat)
    : (PassState, nat)
    decreases MaxIterations - iterations
  {
    if |g.completed| < |acts| && iterations < MaxIterations then
      RunFrom(acts, res, name, PassSpec(acts, res, name, g), iterations + 1)
    else (g, iterations)
  }

  /** The whole run from time 0 with nothing committed. */
  ghost function Run(acts: seq<Activity>, res: seq<Resource>, name: string): (PassState, nat)
  {
    RunFrom(acts, res, name, PassState(0, {}, map[], []), 0)
  }

  lemma PassCommits(acts: seq<Activity>, res: seq<Resource>, name: string, g: PassState, order: seq<int>,
                    k: int, ids: seq<int>)
    requires order == OrderReady(acts, ReadyUpTo(acts, g.completed, g.now, true, |acts|), name)
    requires InRange(acts, order)
    requires FitFrom(acts, res, order, g.now, g.cal, 0) == Some((k, ids))
    ensures 0 <= k < |order| && PassSpec(acts, res, name, g) == CommittedAt(g, acts[order[k]], ids)
  {
  }

  lemma PassIdles(acts: seq<Activity>, res: seq<Resource>, name: string, g: PassState, order: seq<int>)
    requires order == OrderReady(acts, ReadyUpTo(acts, g.completed, g.now, true, |acts|), name)
    requires InRange(acts, order)
    requires FitFrom(acts, res, order, g.now, g.cal, 0) == None
    ensures PassSpec(acts, res, name, g) == g.(now := g.now + 1)
  {
  }

  /** The committing half of a pass: the ready activity at `pos` is
      committed at `now`, keeping the loop invariant. */
  method CommitPass(acts: seq<Activity>, res: seq<Resource>, g: PassState, ghost positions: seq<int>,
                    pos: int, ids: seq<int>)
    returns (g': PassState, ghost positions': seq<int>)
    requires LoopState(acts, res, g.schedule, positions, g.completed, g.cal, g.now)
    requires 0 <= pos < |acts| && IsReady(acts[pos], g.completed, g.now, true)
    requires forall x :: x in ids ==> TimeFree(g.cal, x, g.now, g.now + acts[pos].duration)
    requires ResourcesIndexed(res) ==> NoDup(ids) && forall x :: x in ids ==> 0 <= x < |res|
    ensures LoopState(acts, res, g'.schedule, positions', g'.completed, g'.cal, g'.now)
    ensures g' == CommittedAt(g, acts[pos], ids)
  {
    var schedule, completed, cal;
    schedule, positions', completed, cal :=
      Commit(acts, res, g.schedule, positions, g.completed, g.cal, g.now, pos, ids);
    g' := PassState(g.now, completed, cal, schedule);
  }

  /** One pass of the loop, keeping the loop invariant; the new state is
      the one PassSpec describes. */
  method Pass(acts: seq<Activity>, res: seq<Resource>, name: string, g: PassState, ghost positions: seq<int>)
    returns (g': PassState, ghost positions': seq<int>)
    requires LoopState(acts, res, g.schedule, positions, g.completed, g.cal, g.now)
    ensures LoopState(acts, res, g'.schedule, positions', g'.completed, g'.cal, g'.now)
    ensures g' == PassSpec(acts, res, name, g)
  {
    var ready := CollectReady(acts, g.completed, g.now, true);
    var order := OrderReady(acts, ready, name);
    assert InRange(acts, order) && multiset(order) == multiset(ready) by {
      OrderReadySpec(acts, ready, name);
    }
    var found, idx, ids := FirstFit(acts, res, order, g.now, g.cal);
    if found {
      assert IsReady(acts[order[idx]], g.completed, g.now, true) by {
        assert order[idx] in multiset(order);
      }
      g', positions' := CommitPass(acts, res, g, positions, order[idx], ids);
      PassCommits(acts, res, name, g, order, idx, ids);
    } else {
      LaterClockKeepsState(acts, res, g.schedule, positions, g.completed, g.cal, g.now, g.now + 1);
      g' := g.(now := g.now + 1);
      positions' := positions;
      PassIdles(acts, res, name, g, order);
    }
  }

  /** With an unknown rule name one pass does what an "EST" pass does. */
  lemma UnknownPassIsEst(acts: seq<Activity>, res: seq<Resource>, name: string, g: PassState)
    requires !KnownRule(name)
    ensures PassSpec(acts, res, name, g) == PassSpec(acts, res, "EST", g)
  {
    UnknownRuleIsEst(acts, ReadyUpTo(acts, g.completed, g.now, true, |acts|), name);
  }

  /** An unknown rule name runs exactly as "EST". */
  lemma {:induction false} UnknownRuleRunsAsEst(acts: seq<Activity>, res: seq<Resource>, name: string,
                                                g: PassState, iterations: nat)
    requires !KnownRule(name)
    ensures RunFrom(acts, res, name, g, iterations) == RunFrom(acts, res, "EST", g, iterations)
    decreases MaxIterations - iterations
  {
    if |g.completed| < |acts| && iterations < MaxIterations {
      UnknownPassIsEst(acts, res, name, g);
      UnknownRuleRunsAsEst(acts, res, name, PassSpec(acts, res, name, g), iterations + 1);
    }
  }

  /** Runs the single-pass scheduler and returns the makespan and the
      schedule: those of the run Run describes, which takes as many passes
      as the ghost `iterations` says. */
  method ScheduleWithPriority(acts: seq<Activity>, res: seq<Resource>, name: string)
    returns (makespan: int, schedule: seq<Entry>, ghost positions: seq<int>, ghost iterations: nat)
    ensures makespan == MaxEnd(schedule)
    ensures ValidSchedule(acts, schedule, positions)
    ensures StaffedByDistinct(res, schedule)
    ensures iterations <= MaxIterations
    ensures iterations < MaxIterations ==> |schedule| >= |acts|
    ensures schedule == Run(acts, res, name).0.schedule && iterations == Run(acts, res, name).1
  {
    var g := PassState(0, {}, map[], []);
    positions := [];
    var steps := 0;
    while |g.completed| < |acts| && steps < MaxIterations
      invariant 0 <= steps <= MaxIterations
      invariant LoopState(acts, res, g.schedule, positions, g.completed, g.cal, g.now)
      invariant RunFrom(acts, res, name, g, steps) == Run(acts, res, name)
      decreases MaxIterations - steps
    {
      g, positions := Pass(acts, res, name, g, positions);
      steps := steps + 1;
    }
    schedule := g.schedule;
    iterations := steps;
    makespan := MaxEnd(schedule);
  }
}
