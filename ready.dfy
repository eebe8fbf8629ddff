/** The ready list of both list schedulers and its ordering by a named
    priority rule (msrcpsp_final.py schedule_with_priority and
    improved_scheduler.py schedule_with_progressive_relaxation). Ready
    activities are collected in list order and identified by position;
    every rule sorts ascending with Python's stable sort, LPT and LST by a
    negated key. */
module ReadyOrder {
  import opened Wrappers
  import opened ExtendedInt
  import opened StableSort
  import opened Project
  import opened IdLists

  /** The sort key of a named rule; None for a name neither scheduler knows. */
  function RuleKey(name: string, a: Activity): Option<Key>
  {
    if name == "EST" then Some(IntKey(a.earliestStart))
    else if name == "LFT" then Some(ExtKey(a.latestFinish))
    else if name == "MSLF" then Some(ExtKey(a.slack))
    else if name == "SPT" then Some(IntKey(a.duration))
    else if name == "LPT" then Some(IntKey(-a.duration))
    else if name == "FCFS" then Some(IntKey(a.id))
    else if name == "LST" then Some(ExtKey(Neg(a.latestStart)))
    else None
  }

  predicate KnownRule(name: string)
  {
    name in ["EST", "LFT", "MSLF", "SPT", "LPT", "FCFS", "LST"]
  }

  /** The key the single-pass scheduler sorts by: the rule's, or EST's for
      an unknown name. */
  function StrictKey(name: string, a: Activity): (k: Key)
    ensures KnownRule(name) ==> RuleKey(name, a) == Some(k)
    ensures !KnownRule(name) ==> k == IntKey(a.earliestStart)
  {
    match RuleKey(name, a)
    case Some(k) => k
    case None => IntKey(a.earliestStart)
  }

  predicate InRange(acts: seq<Activity>, ready: seq<int>)
  {
    forall k :: 0 <= k < |ready| ==> 0 <= ready[k] < |acts|
  }

  function Tagged(acts: seq<Activity>, ready: seq<int>, name: string): (r: seq<Keyed>)
    requires InRange(acts, ready)
    ensures |r| == |ready|
    ensures forall k :: 0 <= k < |ready| ==> r[k] == Keyed(StrictKey(name, acts[ready[k]]), ready[k])
  {
    seq(|ready|, k requires 0 <= k < |ready| => Keyed(StrictKey(name, acts[ready[k]]), ready[k]))
  }

  /** ready_activities.sort(key=...) as the single-pass scheduler applies
      it: a rearrangement of the ready list. */
  function OrderReady(acts: seq<Activity>, ready: seq<int>, name: string): (r: seq<int>)
    requires InRange(acts, ready)
    ensures multiset(r) == multiset(ready)
  {
    var t := Tagged(acts, ready, name);
    SortIds(t, false);
    IdsAt(t);
    assert Ids(t) == ready;
    Ids(Sort(t, false))
  }

  /** The relaxing scheduler has no fallback branch: an unknown name leaves
      the ready list in list order. */
  function OrderReadyRelaxed(acts: seq<Activity>, ready: seq<int>, name: string): (r: seq<int>)
    requires InRange(acts, ready)
    ensures multiset(r) == multiset(ready)
  {
    if KnownRule(name) then OrderReady(acts, ready, name) else ready
  }

  /** The ordered ready list is a permutation of the ready list, ascending
      by the rule's key, with equal keys in list order. */
  lemma OrderReadySpec(acts: seq<Activity>, ready: seq<int>, name: string)
    requires InRange(acts, ready) && Increasing(ready)
    ensures multiset(OrderReady(acts, ready, name)) == multiset(ready)
    ensures InRange(acts, OrderReady(acts, ready, name))
    ensures var r := OrderReady(acts, ready, name);
      forall i, j :: 0 <= i < j < |r| ==>
        KeyLe(StrictKey(name, acts[r[i]]), StrictKey(name, acts[r[j]])) &&
        (KeyLe(StrictKey(name, acts[r[j]]), StrictKey(name, acts[r[i]])) ==> r[i] < r[j])
  {
    var t := Tagged(acts, ready, name);
    assert IncreasingIds(t);
    SortSpec(t, false);
    var st := Sort(t, false);
    SortedKeys(acts, ready, name);
    IdsAt(st);
    IdsAt(t);
    assert Ids(t) == ready;
    var r := OrderReady(acts, ready, name);
    assert r == Ids(st);
    forall i, j | 0 <= i < j < |r|
      ensures KeyLe(StrictKey(name, acts[r[i]]), StrictKey(name, acts[r[j]])) &&
        (KeyLe(StrictKey(name, acts[r[j]]), StrictKey(name, acts[r[i]])) ==> r[i] < r[j])
    {
      assert Before(st[i], st[j], false);
      assert st[i] in st && st[j] in st;
    }
  }

  /** The relaxing scheduler's ordering: for a known rule, the stable sort
      by its key; for any other name, the ready list untouched. */
  lemma OrderReadyRelaxedSpec(acts: seq<Activity>, ready: seq<int>, name: string)
    requires InRange(acts, ready) && Increasing(ready)
    ensures !KnownRule(name) ==> OrderReadyRelaxed(acts, ready, name) == ready
    ensures var r := OrderReadyRelaxed(acts, ready, name);
      KnownRule(name) ==> InRange(acts, r) && forall i, j :: 0 <= i < j < |r| ==>
        KeyLe(StrictKey(name, acts[r[i]]), StrictKey(name, acts[r[j]])) &&
        (KeyLe(StrictKey(name, acts[r[j]]), StrictKey(name, acts[r[i]])) ==> r[i] < r[j])
  {
    if KnownRule(name) {
      OrderReadySpec(acts, ready, name);
    }
  }

  lemma SortedKeys(acts: seq<Activity>, ready: seq<int>, name: string)
    requires InRange(acts, ready)
    ensures forall e :: e in Sort(Tagged(acts, ready, name), false) ==>
      0 <= e.id < |acts| && e.key == StrictKey(name, acts[e.id])
  {
    var t := Tagged(acts, ready, name);
    SortContents(t, false);
    forall e | e in Sort(t, false) ensures 0 <= e.id < |acts| && e.key == StrictKey(name, acts[e.id]) {
      assert e in multiset(t);
      var k :| 0 <= k < |t| && t[k] == e;
    }
  }

  /** An unknown rule name orders exactly as EST does in the single-pass scheduler. */
  lemma UnknownRuleIsEst(acts: seq<Activity>, ready: seq<int>, name: string)
    requires InRange(acts, ready) && !KnownRule(name)
    ensures OrderReady(acts, ready, name) == OrderReady(acts, ready, "EST")
  {
    assert Tagged(acts, ready, name) == Tagged(acts, ready, "EST");
  }

  /** all(p in completed for p in activity.predecessors). */
  predicate AllDone(preds: seq<int>, completed: set<int>)
  {
    forall k :: 0 <= k < |preds| ==> preds[k] in completed
  }

  /** Ready: not yet committed, every predecessor committed, and (in the
      single-pass scheduler) an earliest start no later than now. */
  predicate IsReady(a: Activity, completed: set<int>, now: int, checkEarliest: bool)
  {
    a.id !in completed && AllDone(a.predecessors, completed) && (checkEarliest ==> a.earliestStart <= now)
  }

  /** The positions among the first `i` activities that are ready, in list
      order. */
  ghost function ReadyUpTo(acts: seq<Activity>, completed: set<int>, now: int, checkEarliest: bool, i: int)
    : (r: seq<int>)
    requires 0 <= i <= |acts|
    ensures forall k :: 0 <= k < |r| ==> 0 <= r[k] < i
    ensures Increasing(r)
  {
    if i == 0 then []
    else
      var prev := ReadyUpTo(acts, completed, now, checkEarliest, i - 1);
      if IsReady(acts[i - 1], completed, now, checkEarliest) then prev + [i - 1] else prev
  }

  /** The relaxing scheduler's ordering of an increasing ready list stays
      within the activity list. */
  lemma OrderRelaxedInRange(acts: seq<Activity>, ready: seq<int>, name: string)
    requires InRange(acts, ready) && Increasing(ready)
    ensures InRange(acts, OrderReadyRelaxed(acts, ready, name))
  {
    if KnownRule(name) {
      OrderReadySpec(acts, ready, name);
    }
  }

  /** ReadyUpTo holds exactly the ready positions below `i`. */
  lemma {:induction false} ReadyUpToMembers(acts: seq<Activity>, completed: set<int>, now: int, checkEarliest: bool,
                                            i: int)
    requires 0 <= i <= |acts|
    ensures forall j :: 0 <= j < i ==>
      (j in ReadyUpTo(acts, completed, now, checkEarliest, i) <==> IsReady(acts[j], completed, now, checkEarliest))
  {
    if i > 0 {
      ReadyUpToMembers(acts, completed, now, checkEarliest, i - 1);
    }
  }

  /** The positions of the ready activities, in list order. */
  method CollectReady(acts: seq<Activity>, completed: set<int>, now: int, checkEarliest: bool)
    returns (ready: seq<int>)
    ensures InRange(acts, ready) && Increasing(ready)
    ensures forall i :: 0 <= i < |acts| ==> (i in ready <==> IsReady(acts[i], completed, now, checkEarliest))
    ensures ready == ReadyUpTo(acts, completed, now, checkEarliest, |acts|)
  {
    ready := [];
    for i := 0 to |acts|
      invariant ready == ReadyUpTo(acts, completed, now, checkEarliest, i)
    {
      var a := acts[i];
      if a.id in completed {
        continue;
      }
      var allPredsDone := true;
      for k := 0 to |a.predecessors|
        invariant allPredsDone <==> forall m :: 0 <= m < k ==> a.predecessors[m] in completed
      {
        if a.predecessors[k] !in completed {
          allPredsDone := false;
        }
      }
      if allPredsDone && (!checkEarliest || a.earliestStart <= now) {
        ready := ready + [i];
      }
    }
    ReadyUpToMembers(acts, completed, now, checkEarliest, |acts|);
  }
}
