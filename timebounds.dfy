/** The critical-path bounds: a forward pass over the activities in list
    order fills in earliest start and finish, a backward pass in reverse
    order fills in latest finish, latest start and slack
    (msrcpsp_final.py _compute_time_bounds; improved_scheduler.py holds an
    identical copy). Both passes read values written earlier in the same
    pass, which is right only when activities are numbered topologically:
    predecessors before, successors after. */
module TimeBounds {
  import opened ExtendedInt
  import opened Project

  function Max(a: int, b: int): int
  {
    if a >= b then a else b
  }

  // ---- reference definitions over the activities as they were before the passes ----

  /** max(0, earliest finish of predecessors 0 .. k-1 of activity i). */
  function MaxPredFinish(acts: seq<Activity>, i: nat, k: nat): int
    requires i < |acts| && PredecessorsBackward(acts) && k <= |acts[i].predecessors|
    decreases i, 0, k
  {
    if k == 0 then 0
    else Max(MaxPredFinish(acts, i, k - 1), EarliestFinish(acts, acts[i].predecessors[k - 1]))
  }

  function EarliestStart(acts: seq<Activity>, i: nat): int
    requires i < |acts| && PredecessorsBackward(acts)
    decreases i, 1, 0
  {
    if acts[i].predecessors == [] then 0 else MaxPredFinish(acts, i, |acts[i].predecessors|)
  }

  function EarliestFinish(acts: seq<Activity>, i: nat): int
    requires i < |acts| && PredecessorsBackward(acts)
    decreases i, 2, 0
  {
    EarliestStart(acts, i) + acts[i].duration
  }

  /** The largest earliest finish among activities 0 .. k-1. */
  function MaxEarliestFinish(acts: seq<Activity>, k: nat): int
    requires 0 < k <= |acts| && PredecessorsBackward(acts)
  {
    if k == 1 then EarliestFinish(acts, 0)
    else Max(MaxEarliestFinish(acts, k - 1), EarliestFinish(acts, k - 1))
  }

  /** The project deadline: the level deadline, or the longest chain if later. */
  function Deadline(acts: seq<Activity>, levelDeadline: int): int
    requires 0 < |acts| && PredecessorsBackward(acts)
  {
    Max(levelDeadline, MaxEarliestFinish(acts, |acts|))
  }

  /** min(inf, latest start of the in-range successors among 0 .. k-1 of activity i). */
  function MinSuccStart(acts: seq<Activity>, deadline: int, i: nat, k: nat): Ext
    requires i < |acts| && SuccessorsForward(acts) && k <= |acts[i].successors|
    decreases |acts| - i, 0, k
  {
    if k == 0 then PosInf
    else
      var s := acts[i].successors[k - 1];
      var m := MinSuccStart(acts, deadline, i, k - 1);
      if 0 <= s < |acts| then Min(m, LatestStart(acts, deadline, s)) else m
  }

  function LatestFinish(acts: seq<Activity>, deadline: int, i: nat): Ext
    requires i < |acts| && SuccessorsForward(acts)
    decreases |acts| - i, 1, 0
  {
    if acts[i].successors == [] then Fin(deadline)
    else MinSuccStart(acts, deadline, i, |acts[i].successors|)
  }

  function LatestStart(acts: seq<Activity>, deadline: int, i: nat): Ext
    requires i < |acts| && SuccessorsForward(acts)
    decreases |acts| - i, 2, 0
  {
    Sub(LatestFinish(acts, deadline, i), acts[i].duration)
  }

  /** Activity i after the forward pass. */
  function Forwarded(acts: seq<Activity>, i: nat): Activity
    requires i < |acts| && PredecessorsBackward(acts)
  {
    acts[i].(earliestStart := EarliestStart(acts, i), earliestFinish := EarliestFinish(acts, i))
  }

  /** Activity i after both passes. */
  function Bounded(acts: seq<Activity>, deadline: int, i: nat): Activity
    requires i < |acts| && PredecessorsBackward(acts) && SuccessorsForward(acts)
  {
    var ls := LatestStart(acts, deadline, i);
    Forwarded(acts, i).(latestFinish := LatestFinish(acts, deadline, i), latestStart := ls,
                        slack := Sub(ls, EarliestStart(acts, i)))
  }

  /** The forward pass: each activity, in list order, gets its earliest start
      from the earliest finishes its predecessors were given before it. */
  method ForwardPass(acts: array<Activity>)
    requires PredecessorsBackward(acts[..])
    modifies acts
    ensures forall j :: 0 <= j < acts.Length ==> acts[j] == Forwarded(old(acts[..]), j)
  {
    ghost var a0 := acts[..];
    var n := acts.Length;
    for i := 0 to n
      invariant forall j :: 0 <= j < i ==> acts[j] == Forwarded(a0, j)
      invariant forall j :: i <= j < n ==> acts[j] == a0[j]
    {
      var preds := acts[i].predecessors;
      var es := 0;
      if preds != [] {
        var maxPredFinish := 0;
        for k := 0 to |preds|
          invariant maxPredFinish == MaxPredFinish(a0, i, k)
        {
          var p := preds[k];
          assert 0 <= p < i;
          maxPredFinish := Max(maxPredFinish, acts[p].earliestFinish);
        }
        es := maxPredFinish;
      }
      acts[i] := acts[i].(earliestStart := es, earliestFinish := es + acts[i].duration);
    }
  }

  /** The backward pass, in reverse list order, after the forward pass: each
      activity gets its latest finish from the latest starts its successors
      were given before it, then its latest start and slack. */
  method BackwardPass(acts: array<Activity>, ghost a0: seq<Activity>, deadline: int)
    requires |a0| == acts.Length && PredecessorsBackward(a0) && SuccessorsForward(a0)
    requires forall j :: 0 <= j < acts.Length ==> acts[j] == Forwarded(a0, j)
    modifies acts
    ensures forall j :: 0 <= j < acts.Length ==> acts[j] == Bounded(a0, deadline, j)
  {
    var n := acts.Length;
    var i := n;
    while i > 0
      invariant 0 <= i <= n
      invariant forall j :: 0 <= j < i ==> acts[j] == Forwarded(a0, j)
      invariant forall j :: i <= j < n ==> acts[j] == Bounded(a0, deadline, j)
    {
      i := i - 1;
      var succs := acts[i].successors;
      var lf: Ext;
      if succs == [] {
        lf := Fin(deadline);
      } else {
        var minSuccStart := PosInf;
        for k := 0 to |succs|
          invariant minSuccStart == MinSuccStart(a0, deadline, i, k)
        {
          var s := succs[k];
          if 0 <= s < n {
            assert i < s;
            minSuccStart := Min(minSuccStart, acts[s].latestStart);
          }
        }
        lf := minSuccStart;
      }
      var ls := Sub(lf, acts[i].duration);
      acts[i] := acts[i].(latestFinish := lf, latestStart := ls, slack := Sub(ls, acts[i].earliestStart));
    }
  }

  /** Both passes over the activity list, in place. An empty list makes the
      source's max() over earliest finishes raise; that is `ok == false`,
      and nothing has changed. */
  method ComputeTimeBounds(acts: array<Activity>, levelDeadline: int) returns (ok: bool)
    requires PredecessorsBackward(acts[..]) && SuccessorsForward(acts[..])
    modifies acts
    ensures ok <==> acts.Length > 0
    ensures ok ==> forall i :: 0 <= i < acts.Length ==>
      acts[i] == Bounded(old(acts[..]), Deadline(old(acts[..]), levelDeadline), i)
    ensures !ok ==> acts[..] == old(acts[..])
  {
    ghost var a0 := acts[..];
    var n := acts.Length;
    ForwardPass(acts);
    if n == 0 {
      return false;
    }
    // the deadline
    var maxEf := acts[0].earliestFinish;
    for k := 1 to n
      invariant maxEf == MaxEarliestFinish(a0, k)
    {
      maxEf := Max(maxEf, acts[k].earliestFinish);
    }
    var deadline := Max(levelDeadline, maxEf);
    BackwardPass(acts, a0, deadline);
    return true;
  }

  // ---- what the bounds mean ----

  /** The earliest start is the latest predecessor finish, and never negative:
      at least every predecessor's earliest finish, and either 0 or one of them. */
  lemma {:induction false} MaxPredFinishIsMax(acts: seq<Activity>, i: nat, k: nat)
    requires i < |acts| && PredecessorsBackward(acts) && k <= |acts[i].predecessors|
    ensures MaxPredFinish(acts, i, k) >= 0
    ensures forall q :: 0 <= q < k ==>
      MaxPredFinish(acts, i, k) >= EarliestFinish(acts, acts[i].predecessors[q])
    ensures MaxPredFinish(acts, i, k) == 0 ||
      exists q :: 0 <= q < k && MaxPredFinish(acts, i, k) == EarliestFinish(acts, acts[i].predecessors[q])
  {
    if k > 0 {
      MaxPredFinishIsMax(acts, i, k - 1);
    }
  }

  lemma EarliestStartIsMax(acts: seq<Activity>, i: nat)
    requires i < |acts| && PredecessorsBackward(acts)
    ensures EarliestStart(acts, i) >= 0
    ensures forall p :: p in acts[i].predecessors ==> EarliestStart(acts, i) >= EarliestFinish(acts, p)
    ensures acts[i].predecessors == [] ==> EarliestStart(acts, i) == 0
    ensures EarliestStart(acts, i) == 0 ||
      exists p :: p in acts[i].predecessors && EarliestStart(acts, i) == EarliestFinish(acts, p)
  {
    MaxPredFinishIsMax(acts, i, |acts[i].predecessors|);
  }

  /** The deadline is the larger of the level deadline and the largest
      earliest finish. */
  lemma {:induction false} MaxEarliestFinishIsMax(acts: seq<Activity>, k: nat)
    requires 0 < k <= |acts| && PredecessorsBackward(acts)
    ensures forall j :: 0 <= j < k ==> MaxEarliestFinish(acts, k) >= EarliestFinish(acts, j)
    ensures exists j :: 0 <= j < k && MaxEarliestFinish(acts, k) == EarliestFinish(acts, j)
  {
    if k > 1 {
      MaxEarliestFinishIsMax(acts, k - 1);
    } else {
      assert MaxEarliestFinish(acts, k) == EarliestFinish(acts, 0);
    }
  }

  lemma DeadlineIsMax(acts: seq<Activity>, levelDeadline: int)
    requires 0 < |acts| && PredecessorsBackward(acts)
    ensures Deadline(acts, levelDeadline) >= levelDeadline
    ensures forall j :: 0 <= j < |acts| ==> Deadline(acts, levelDeadline) >= EarliestFinish(acts, j)
    ensures Deadline(acts, levelDeadline) == levelDeadline ||
      exists j :: 0 <= j < |acts| && Deadline(acts, levelDeadline) == EarliestFinish(acts, j)
  {
    MaxEarliestFinishIsMax(acts, |acts|);
  }

  /** The latest finish is the earliest in-range successor start: at most
      each of them, and one of them unless no successor is in range (inf). */
  lemma {:induction false} MinSuccStartIsMin(acts: seq<Activity>, deadline: int, i: nat, k: nat)
    requires i < |acts| && SuccessorsForward(acts) && k <= |acts[i].successors|
    ensures forall q :: 0 <= q < k && 0 <= acts[i].successors[q] < |acts| ==>
      Le(MinSuccStart(acts, deadline, i, k), LatestStart(acts, deadline, acts[i].successors[q]))
    ensures MinSuccStart(acts, deadline, i, k) == PosInf ||
      exists q :: 0 <= q < k && 0 <= acts[i].successors[q] < |acts| &&
        MinSuccStart(acts, deadline, i, k) == LatestStart(acts, deadline, acts[i].successors[q])
  {
    if k > 0 {
      MinSuccStartIsMin(acts, deadline, i, k - 1);
      var m := MinSuccStart(acts, deadline, i, k - 1);
      var s := acts[i].successors[k - 1];
      if 0 <= s < |acts| {
        var r := Min(m, LatestStart(acts, deadline, s));
        forall q | 0 <= q < k && 0 <= acts[i].successors[q] < |acts|
          ensures Le(r, LatestStart(acts, deadline, acts[i].successors[q]))
        {
          if q < k - 1 {
            LeTrans(r, m, LatestStart(acts, deadline, acts[i].successors[q]));
          }
        }
      }
    }
  }

  lemma LeTrans(a: Ext, b: Ext, c: Ext)
    requires Le(a, b) && Le(b, c)
    ensures Le(a, c)
  {
  }

  lemma LatestFinishIsMin(acts: seq<Activity>, deadline: int, i: nat)
    requires i < |acts| && SuccessorsForward(acts)
    ensures acts[i].successors == [] ==> LatestFinish(acts, deadline, i) == Fin(deadline)
    ensures acts[i].successors != [] ==>
      (forall s :: s in acts[i].successors && 0 <= s < |acts| ==>
        Le(LatestFinish(acts, deadline, i), LatestStart(acts, deadline, s))) &&
      (LatestFinish(acts, deadline, i) == PosInf ||
        exists s :: s in acts[i].successors && 0 <= s < |acts| &&
          LatestFinish(acts, deadline, i) == LatestStart(acts, deadline, s))
  {
    if acts[i].successors != [] {
      MinSuccStartIsMin(acts, deadline, i, |acts[i].successors|);
    }
  }

  /** With predecessor lists linked to successor lists and the deadline no
      earlier than any earliest finish, every activity can finish by its
      latest finish: latest start >= earliest start, so slack is never
      negative (inf when no successor is in range). */
  lemma {:induction false} FinishWithinLatest(acts: seq<Activity>, deadline: int, i: nat)
    requires i < |acts| && PredecessorsBackward(acts) && SuccessorsForward(acts) && Linked(acts)
    requires forall j :: 0 <= j < |acts| ==> EarliestFinish(acts, j) <= deadline
    ensures Le(Fin(EarliestFinish(acts, i)), LatestFinish(acts, deadline, i))
    decreases |acts| - i
  {
    if acts[i].successors != [] {
      LatestFinishIsMin(acts, deadline, i);
      var lf := LatestFinish(acts, deadline, i);
      if lf != PosInf {
        var s :| s in acts[i].successors && 0 <= s < |acts| && lf == LatestStart(acts, deadline, s);
        var q :| 0 <= q < |acts[i].successors| && acts[i].successors[q] == s;
        assert i < s;
        FinishWithinLatest(acts, deadline, s);
        EarliestStartIsMax(acts, s);
        assert i in acts[s].predecessors;
      }
    }
  }

  lemma SlackNonNegative(acts: seq<Activity>, levelDeadline: int, i: nat)
    requires i < |acts| && PredecessorsBackward(acts) && SuccessorsForward(acts) && Linked(acts)
    ensures Le(Fin(0), Bounded(acts, Deadline(acts, levelDeadline), i).slack)
    ensures Le(Fin(Bounded(acts, Deadline(acts, levelDeadline), i).earliestStart),
               Bounded(acts, Deadline(acts, levelDeadline), i).latestStart)
  {
    DeadlineIsMax(acts, levelDeadline);
    FinishWithinLatest(acts, Deadline(acts, levelDeadline), i);
  }
}
