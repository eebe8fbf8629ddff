/** compute_temporal_metrics of paste.py (lines 416-477): earliest starts by
    a memoised recursion over predecessors, the project duration as the
    latest earliest finish, latest finishes and starts by a recursion over
    successors, and the float of each activity. The recursions write into
    the est, lst and lft lists as they go; here those lists are arrays. */
module TemporalMetrics {
  import opened Wrappers
  import opened PrecedenceGraph
  import opened PositionalWeight
  import PriorityRules

  /** A rank in the other direction: it strictly drops along every
      predecessor edge, and every listed predecessor is an activity. It is
      what lets the earliest-start recursion end. */
  ghost predicate PredRankOk(g: Graph, prank: seq<nat>)
  {
    |prank| == |g| && PredsInRange(g) &&
    forall i, k :: 0 <= i < |g| && 0 <= k < |g[i].predecessors| ==>
      prank[g[i].predecessors[k] - 1] < prank[i]
  }

  /** A graph whose predecessor lists mirror its acyclic successor lists
      (as parse_dzn_file builds them) has such a rank: the successor rank
      turned upside down. */
  lemma MirroredPredRank(g: Graph, rank: seq<int>)
    requires RankOk(g, rank) && Mirrored(g) && PredsInRange(g)
    ensures PredRankOk(g, seq(|g|, i requires 0 <= i < |g| => (|g| - rank[i]) as nat))
  {
    var prank := seq(|g|, i requires 0 <= i < |g| => (|g| - rank[i]) as nat);
    forall i, k | 0 <= i < |g| && 0 <= k < |g[i].predecessors|
      ensures prank[g[i].predecessors[k] - 1] < prank[i]
    {
      var p := g[i].predecessors[k];
      assert i + 1 in Succ(g, p) by {
        assert p in Pred(g, i + 1);
      }
      var j :| 0 <= j < |Succ(g, p)| && Succ(g, p)[j] == i + 1;
      assert g[p - 1].successors[j] == i + 1;
    }
  }

  // ---- earliest starts ----

  /** 0 for an activity without predecessors, otherwise the latest finish
      (earliest start plus duration) among its predecessors. */
  ghost function Est(g: Graph, dur: seq<int>, prank: seq<nat>, t: int): int
    requires PredRankOk(g, prank) && |dur| >= |g| && 1 <= t <= |g|
    decreases prank[t - 1], 1
  {
    if Pred(g, t) == [] then 0 else MaxOf(PredFinishes(g, dur, prank, t))
  }

  /** The earliest finishes of t's predecessors, in list order. */
  ghost function PredFinishes(g: Graph, dur: seq<int>, prank: seq<nat>, t: int): (fs: seq<int>)
    requires PredRankOk(g, prank) && |dur| >= |g| && 1 <= t <= |g|
    ensures |fs| == |Pred(g, t)|
    decreases prank[t - 1], 0
  {
    var ps := Pred(g, t);
    seq(|ps|, i requires 0 <= i < |ps| => Est(g, dur, prank, ps[i]) + dur[ps[i] - 1])
  }

  /** The i-th predecessor of t is an activity of lower rank, and its finish
      is the i-th entry of PredFinishes. */
  lemma PredFinishAt(g: Graph, dur: seq<int>, prank: seq<nat>, t: int, i: int)
    requires PredRankOk(g, prank) && |dur| >= |g| && 1 <= t <= |g| && 0 <= i < |Pred(g, t)|
    ensures 1 <= Pred(g, t)[i] <= |g| && prank[Pred(g, t)[i] - 1] < prank[t - 1]
    ensures PredFinishes(g, dur, prank, t)[i] ==
      Est(g, dur, prank, Pred(g, t)[i]) + dur[Pred(g, t)[i] - 1]
  {
  }

  /** An activity starts no earlier than any predecessor finishes. */
  lemma EstAfterPred(g: Graph, dur: seq<int>, prank: seq<nat>, t: int, i: int)
    requires PredRankOk(g, prank) && |dur| >= |g| && 1 <= t <= |g| && 0 <= i < |Pred(g, t)|
    ensures var p := Pred(g, t)[i];
      Est(g, dur, prank, t) >= Est(g, dur, prank, p) + dur[p - 1]
  {
    PredFinishAt(g, dur, prank, t, i);
    var fs := PredFinishes(g, dur, prank, t);
    assert fs[i] <= MaxOf(fs);
  }

  /** ... and it starts exactly when one of them finishes, or at 0. */
  lemma EstAttained(g: Graph, dur: seq<int>, prank: seq<nat>, t: int) returns (i: int)
    requires PredRankOk(g, prank) && |dur| >= |g| && 1 <= t <= |g| && Pred(g, t) != []
    ensures 0 <= i < |Pred(g, t)|
    ensures Est(g, dur, prank, t) == Est(g, dur, prank, Pred(g, t)[i]) + dur[Pred(g, t)[i] - 1]
  {
    var fs := PredFinishes(g, dur, prank, t);
    i :| 0 <= i < |fs| && fs[i] == MaxOf(fs);
    PredFinishAt(g, dur, prank, t, i);
  }

  /** With non-negative durations no activity starts before time 0. */
  lemma {:induction false} EstNonNegative(g: Graph, dur: seq<int>, prank: seq<nat>, t: int)
    requires PredRankOk(g, prank) && |dur| >= |g| && 1 <= t <= |g|
    requires forall i :: 0 <= i < |g| ==> dur[i] >= 0
    ensures Est(g, dur, prank, t) >= 0
    decreases prank[t - 1]
  {
    if Pred(g, t) != [] {
      PredFinishAt(g, dur, prank, t, 0);
      EstNonNegative(g, dur, prank, Pred(g, t)[0]);
      EstAfterPred(g, dur, prank, t, 0);
    }
  }

  /** The earliest finishes of activities 1..n, in list order. */
  ghost function Finishes(g: Graph, dur: seq<int>, prank: seq<nat>): (fs: seq<int>)
    requires PredRankOk(g, prank) && |dur| >= |g|
    ensures |fs| == |g|
  {
    seq(|g|, i requires 0 <= i < |g| => Est(g, dur, prank, i + 1) + dur[i])
  }

  /** The project duration: max(est[i] + durations[i] for i in range(n)). */
  ghost function ProjectDuration(g: Graph, dur: seq<int>, prank: seq<nat>): int
    requires PredRankOk(g, prank) && |dur| >= |g| && |g| > 0
  {
    MaxOf(Finishes(g, dur, prank))
  }

  /** Every activity finishes by the project duration, and one finishes
      exactly then. */
  lemma ProjectDurationBounds(g: Graph, dur: seq<int>, prank: seq<nat>) returns (last: int)
    requires PredRankOk(g, prank) && |dur| >= |g| && |g| > 0
    ensures forall i :: 0 <= i < |g| ==> Est(g, dur, prank, i + 1) + dur[i] <= ProjectDuration(g, dur, prank)
    ensures 1 <= last <= |g| && Est(g, dur, prank, last) + dur[last - 1] == ProjectDuration(g, dur, prank)
  {
    var fs := Finishes(g, dur, prank);
    assert forall i :: 0 <= i < |g| ==> fs[i] == Est(g, dur, prank, i + 1) + dur[i];
    var k :| 0 <= k < |g| && fs[k] == MaxOf(fs);
    last := k + 1;
  }

  // ---- latest finishes ----

  /** The project duration for an activity without successors, otherwise
      the earliest latest start among its successors. */
  ghost function Lft(g: Graph, dur: seq<int>, rank: seq<int>, pd: int, t: int): int
    requires RankOk(g, rank) && |dur| >= |g| && 1 <= t <= |g|
    decreases rank[t - 1], 1
  {
    if Succ(g, t) == [] then pd else MinOf(SuccStarts(g, dur, rank, pd, t))
  }

  /** The latest start: latest finish minus duration. */
  ghost function Lst(g: Graph, dur: seq<int>, rank: seq<int>, pd: int, t: int): int
    requires RankOk(g, rank) && |dur| >= |g| && 1 <= t <= |g|
    decreases rank[t - 1], 2
  {
    Lft(g, dur, rank, pd, t) - dur[t - 1]
  }

  /** The latest starts of t's successors, in list order. */
  ghost function SuccStarts(g: Graph, dur: seq<int>, rank: seq<int>, pd: int, t: int): (ss: seq<int>)
    requires RankOk(g, rank) && |dur| >= |g| && 1 <= t <= |g|
    ensures |ss| == |Succ(g, t)|
    decreases rank[t - 1], 0
  {
    var su := Succ(g, t);
    seq(|su|, i requires 0 <= i < |su| => Lst(g, dur, rank, pd, su[i]))
  }

  lemma SuccStartAt(g: Graph, dur: seq<int>, rank: seq<int>, pd: int, t: int, i: int)
    requires RankOk(g, rank) && |dur| >= |g| && 1 <= t <= |g| && 0 <= i < |Succ(g, t)|
    ensures 1 <= Succ(g, t)[i] <= |g| && rank[Succ(g, t)[i] - 1] < rank[t - 1]
    ensures SuccStarts(g, dur, rank, pd, t)[i] == Lst(g, dur, rank, pd, Succ(g, t)[i])
  {
  }

  /** An activity must finish by the latest start of each successor. */
  lemma LftBeforeSucc(g: Graph, dur: seq<int>, rank: seq<int>, pd: int, t: int, i: int)
    requires RankOk(g, rank) && |dur| >= |g| && 1 <= t <= |g| && 0 <= i < |Succ(g, t)|
    ensures Lft(g, dur, rank, pd, t) <= Lst(g, dur, rank, pd, Succ(g, t)[i])
  {
    SuccStartAt(g, dur, rank, pd, t, i);
    var ss := SuccStarts(g, dur, rank, pd, t);
    assert MinOf(ss) <= ss[i];
  }

  /** The float lst - est is never negative: on a graph whose predecessor
      lists mirror its successor lists, no activity's latest finish comes
      before its earliest finish. */
  lemma {:induction false} FinishWindow(g: Graph, dur: seq<int>, rank: seq<int>, prank: seq<nat>, t: int)
    requires RankOk(g, rank) && PredRankOk(g, prank) && Mirrored(g) && |dur| >= |g| && 1 <= t <= |g|
    ensures Lft(g, dur, rank, ProjectDuration(g, dur, prank), t) >= Est(g, dur, prank, t) + dur[t - 1]
    decreases rank[t - 1], 1
  {
    var pd := ProjectDuration(g, dur, prank);
    if Succ(g, t) != [] {
      var ss := SuccStarts(g, dur, rank, pd, t);
      forall i | 0 <= i < |ss| ensures ss[i] >= Est(g, dur, prank, t) + dur[t - 1] {
        SuccStartWindow(g, dur, rank, prank, t, i);
      }
      assert MinOf(ss) in ss;
    } else {
      var last := ProjectDurationBounds(g, dur, prank);
      assert Est(g, dur, prank, t) + dur[t - 1] <= pd;
    }
  }

  /** The step of that induction: successor i starts late enough. */
  lemma {:induction false} SuccStartWindow(g: Graph, dur: seq<int>, rank: seq<int>, prank: seq<nat>, t: int, i: int)
    requires RankOk(g, rank) && PredRankOk(g, prank) && Mirrored(g) && |dur| >= |g| && 1 <= t <= |g|
    requires 0 <= i < |Succ(g, t)|
    ensures SuccStarts(g, dur, rank, ProjectDuration(g, dur, prank), t)[i] >= Est(g, dur, prank, t) + dur[t - 1]
    decreases rank[t - 1], 0
  {
    var pd := ProjectDuration(g, dur, prank);
    SuccStartAt(g, dur, rank, pd, t, i);
    var s := Succ(g, t)[i];
    FinishWindow(g, dur, rank, prank, s);
    assert t in Pred(g, s) by {
      assert s in Succ(g, t);
    }
    var j :| 0 <= j < |Pred(g, s)| && Pred(g, s)[j] == t;
    EstAfterPred(g, dur, prank, s, j);
  }

  lemma FloatNonNegative(g: Graph, dur: seq<int>, rank: seq<int>, prank: seq<nat>, t: int)
    requires RankOk(g, rank) && PredRankOk(g, prank) && Mirrored(g) && |dur| >= |g| && 1 <= t <= |g|
    ensures Lst(g, dur, rank, ProjectDuration(g, dur, prank), t) - Est(g, dur, prank, t) >= 0
  {
    FinishWindow(g, dur, rank, prank, t);
  }

  // ---- the computation ----

  /** Every entry the memo test trusts (a positive one) is right. */
  ghost predicate EstSound(g: Graph, dur: seq<int>, prank: seq<nat>, est: seq<int>)
    requires PredRankOk(g, prank) && |dur| >= |g|
  {
    |est| == |g| && forall i :: 0 <= i < |g| && est[i] > 0 ==> est[i] == Est(g, dur, prank, i + 1)
  }

  /** Every entry of now is either what it was in before or right. */
  ghost predicate EstProgress(g: Graph, dur: seq<int>, prank: seq<nat>, before: seq<int>, now: seq<int>)
    requires PredRankOk(g, prank) && |dur| >= |g| && |before| == |now| == |g|
  {
    forall i :: 0 <= i < |g| ==> now[i] == before[i] || now[i] == Est(g, dur, prank, i + 1)
  }

  /** calculate_est: return the entry if it is positive, otherwise compute
      it from the predecessors and store it. */
  method CalculateEst(g: Graph, dur: seq<int>, ghost prank: seq<nat>, est: array<int>, activity: int)
    returns (v: int)
    requires PredRankOk(g, prank) && |dur| >= |g| && 1 <= activity <= |g|
    requires EstSound(g, dur, prank, est[..])
    modifies est
    ensures EstSound(g, dur, prank, est[..]) && EstProgress(g, dur, prank, old(est[..]), est[..])
    ensures v == est[activity - 1] == Est(g, dur, prank, activity)
    decreases prank[activity - 1], 1
  {
    if est[activity - 1] > 0 {
      return est[activity - 1];
    }
    var predecessors := g[activity - 1].predecessors;
    if predecessors == [] {
      v := 0;
    } else {
      v := LatestPredFinish(g, dur, prank, est, activity);
    }
    ghost var est1 := est[..];
    EstStore(g, dur, prank, old(est[..]), est1, activity);
    est[activity - 1] := v;
    assert est[..] == est1[activity - 1 := v];
  }

  /** Storing an activity's right earliest start keeps both invariants. */
  lemma EstStore(g: Graph, dur: seq<int>, prank: seq<nat>, est0: seq<int>, est1: seq<int>, t: int)
    requires PredRankOk(g, prank) && |dur| >= |g| && |est0| == |est1| == |g| && 1 <= t <= |g|
    requires EstSound(g, dur, prank, est1) && EstProgress(g, dur, prank, est0, est1)
    ensures var est2 := est1[t - 1 := Est(g, dur, prank, t)];
      EstSound(g, dur, prank, est2) && EstProgress(g, dur, prank, est0, est2)
  {
  }

  /** max(calculate_est(pred) + durations[pred - 1] for pred in predecessors) */
  method LatestPredFinish(g: Graph, dur: seq<int>, ghost prank: seq<nat>, est: array<int>, activity: int)
    returns (best: int)
    requires PredRankOk(g, prank) && |dur| >= |g| && 1 <= activity <= |g| && Pred(g, activity) != []
    requires EstSound(g, dur, prank, est[..])
    modifies est
    ensures EstSound(g, dur, prank, est[..]) && EstProgress(g, dur, prank, old(est[..]), est[..])
    ensures best == MaxOf(PredFinishes(g, dur, prank, activity))
    decreases prank[activity - 1], 0, 1
  {
    ghost var fs := PredFinishes(g, dur, prank, activity);
    best := PredFinish(g, dur, prank, est, activity, 0);
    assert fs[..1] == [fs[0]];
    for i := 1 to |g[activity - 1].predecessors|
      invariant EstSound(g, dur, prank, est[..]) && EstProgress(g, dur, prank, old(est[..]), est[..])
      invariant best == MaxOf(fs[..i])
    {
      var f := PredFinish(g, dur, prank, est, activity, i);
      MaxOfSnoc(fs, i);
      if f > best {
        best := f;
      }
    }
    assert fs[..|g[activity - 1].predecessors|] == fs;
  }

  /** One term of that max: the finish of predecessor i. */
  method PredFinish(g: Graph, dur: seq<int>, ghost prank: seq<nat>, est: array<int>, activity: int, i: int)
    returns (f: int)
    requires PredRankOk(g, prank) && |dur| >= |g| && 1 <= activity <= |g| && 0 <= i < |Pred(g, activity)|
    requires EstSound(g, dur, prank, est[..])
    modifies est
    ensures EstSound(g, dur, prank, est[..]) && EstProgress(g, dur, prank, old(est[..]), est[..])
    ensures f == PredFinishes(g, dur, prank, activity)[i]
    decreases prank[activity - 1], 0, 0
  {
    PredFinishAt(g, dur, prank, activity, i);
    var pred := g[activity - 1].predecessors[i];
    var e := CalculateEst(g, dur, prank, est, pred);
    f := e + dur[pred - 1];
  }

  /** The entries of lst and lft: each pair is either what it was or right. */
  ghost predicate LateProgress(g: Graph, dur: seq<int>, rank: seq<int>, pd: int,
                               lst0: seq<int>, lft0: seq<int>, lst: seq<int>, lft: seq<int>)
    requires RankOk(g, rank) && |dur| >= |g| && |lst0| == |lft0| == |lst| == |lft| == |g|
  {
    forall i :: 0 <= i < |g| ==>
      (lst[i] == lst0[i] && lft[i] == lft0[i]) ||
      (lst[i] == Lst(g, dur, rank, pd, i + 1) && lft[i] == Lft(g, dur, rank, pd, i + 1))
  }

  /** calculate_lst: no memo; recompute from the successors every time and
      store the latest finish and start. */
  method CalculateLst(g: Graph, dur: seq<int>, ghost rank: seq<int>, pd: int,
                      lst: array<int>, lft: array<int>, activity: int)
    returns (v: int)
    requires RankOk(g, rank) && |dur| >= |g| && 1 <= activity <= |g|
    requires lst.Length == lft.Length == |g| && lst != lft
    modifies lst, lft
    ensures LateProgress(g, dur, rank, pd, old(lst[..]), old(lft[..]), lst[..], lft[..])
    ensures v == lst[activity - 1] == Lst(g, dur, rank, pd, activity)
    ensures lft[activity - 1] == Lft(g, dur, rank, pd, activity)
    decreases rank[activity - 1], 1
  {
    var successors := g[activity - 1].successors;
    var finish;
    if successors == [] {
      finish := pd;
    } else {
      finish := EarliestSuccStart(g, dur, rank, pd, lst, lft, activity);
    }
    ghost var lst1, lft1 := lst[..], lft[..];
    LateStore(g, dur, rank, pd, old(lst[..]), old(lft[..]), lst1, lft1, activity);
    lft[activity - 1] := finish;
    lst[activity - 1] := finish - dur[activity - 1];
    v := lst[activity - 1];
    assert lst[..] == lst1[activity - 1 := v] && lft[..] == lft1[activity - 1 := finish];
  }

  /** Storing an activity's right latest times keeps the other entries' state. */
  lemma LateStore(g: Graph, dur: seq<int>, rank: seq<int>, pd: int,
                  lst0: seq<int>, lft0: seq<int>, lst1: seq<int>, lft1: seq<int>, t: int)
    requires RankOk(g, rank) && |dur| >= |g| && |lst0| == |lft0| == |lst1| == |lft1| == |g| && 1 <= t <= |g|
    requires LateProgress(g, dur, rank, pd, lst0, lft0, lst1, lft1)
    ensures LateProgress(g, dur, rank, pd, lst0, lft0,
      lst1[t - 1 := Lst(g, dur, rank, pd, t)], lft1[t - 1 := Lft(g, dur, rank, pd, t)])
  {
  }

  /** min(calculate_lst(succ) for succ in successors) */
  method EarliestSuccStart(g: Graph, dur: seq<int>, ghost rank: seq<int>, pd: int,
                           lst: array<int>, lft: array<int>, activity: int)
    returns (least: int)
    requires RankOk(g, rank) && |dur| >= |g| && 1 <= activity <= |g| && Succ(g, activity) != []
    requires lst.Length == lft.Length == |g| && lst != lft
    modifies lst, lft
    ensures LateProgress(g, dur, rank, pd, old(lst[..]), old(lft[..]), lst[..], lft[..])
    ensures least == MinOf(SuccStarts(g, dur, rank, pd, activity))
    decreases rank[activity - 1], 0, 1
  {
    ghost var ss := SuccStarts(g, dur, rank, pd, activity);
    least := SuccStart(g, dur, rank, pd, lst, lft, activity, 0);
    assert ss[..1] == [ss[0]];
    for i := 1 to |g[activity - 1].successors|
      invariant LateProgress(g, dur, rank, pd, old(lst[..]), old(lft[..]), lst[..], lft[..])
      invariant least == MinOf(ss[..i])
    {
      var s := SuccStart(g, dur, rank, pd, lst, lft, activity, i);
      MinOfSnoc(ss, i);
      if s < least {
        least := s;
      }
    }
    assert ss[..|g[activity - 1].successors|] == ss;
  }

  /** One term of that min: the latest start of successor i. */
  method SuccStart(g: Graph, dur: seq<int>, ghost rank: seq<int>, pd: int,
                   lst: array<int>, lft: array<int>, activity: int, i: int)
    returns (s: int)
    requires RankOk(g, rank) && |dur| >= |g| && 1 <= activity <= |g| && 0 <= i < |Succ(g, activity)|
    requires lst.Length == lft.Length == |g| && lst != lft
    modifies lst, lft
    ensures LateProgress(g, dur, rank, pd, old(lst[..]), old(lft[..]), lst[..], lft[..])
    ensures s == SuccStarts(g, dur, rank, pd, activity)[i]
    decreases rank[activity - 1], 0, 0
  {
    SuccStartAt(g, dur, rank, pd, activity, i);
    s := CalculateLst(g, dur, rank, pd, lst, lft, g[activity - 1].successors[i]);
  }

  /** The first loop: calculate_est for every activity in list order,
      on a list of zeros. */
  method EarliestStarts(g: Graph, dur: seq<int>, ghost prank: seq<nat>) returns (est: array<int>)
    requires PredRankOk(g, prank) && |dur| >= |g|
    ensures fresh(est) && est.Length == |g|
    ensures forall i :: 0 <= i < |g| ==> est[i] == Est(g, dur, prank, i + 1)
  {
    est := new int[|g|](_ => 0);
    for a := 1 to |g| + 1
      invariant EstSound(g, dur, prank, est[..])
      invariant forall i :: 0 <= i < a - 1 ==> est[i] == Est(g, dur, prank, i + 1)
    {
      var e := CalculateEst(g, dur, prank, est, a);
    }
  }

  /** max(est[i] + durations[i] for i in range(n)) over the computed starts. */
  method LatestFinish(g: Graph, dur: seq<int>, ghost prank: seq<nat>, est: seq<int>) returns (pd: int)
    requires PredRankOk(g, prank) && |dur| >= |g| && |g| > 0 && |est| == |g|
    requires forall i :: 0 <= i < |g| ==> est[i] == Est(g, dur, prank, i + 1)
    ensures pd == ProjectDuration(g, dur, prank)
  {
    ghost var fs := Finishes(g, dur, prank);
    assert fs[0] == est[0] + dur[0];
    pd := est[0] + dur[0];
    assert fs[..1] == [fs[0]];
    for i := 1 to |g|
      invariant pd == MaxOf(fs[..i])
    {
      assert fs[i] == est[i] + dur[i];
      MaxOfSnoc(fs, i);
      if est[i] + dur[i] > pd {
        pd := est[i] + dur[i];
      }
    }
    assert fs[..|g|] == fs;
  }

  /** The second loop: calculate_lst for every activity in list order, on
      lists filled with the project duration. */
  method LatestTimes(g: Graph, dur: seq<int>, ghost rank: seq<int>, pd: int) returns (lst: array<int>, lft: array<int>)
    requires RankOk(g, rank) && |dur| >= |g|
    ensures fresh(lst) && fresh(lft) && lst.Length == lft.Length == |g|
    ensures forall i :: 0 <= i < |g| ==>
      lst[i] == Lst(g, dur, rank, pd, i + 1) && lft[i] == Lft(g, dur, rank, pd, i + 1)
  {
    lst := new int[|g|](_ => pd);
    lft := new int[|g|](_ => pd);
    for a := 1 to |g| + 1
      invariant forall i :: 0 <= i < a - 1 ==>
        lst[i] == Lst(g, dur, rank, pd, i + 1) && lft[i] == Lft(g, dur, rank, pd, i + 1)
    {
      var l := CalculateLst(g, dur, rank, pd, lst, lft, a);
    }
  }

  /** The four lists compute_temporal_metrics stores back into the instance. */
  datatype Metrics = Metrics(est: seq<int>, lst: seq<int>, lft: seq<int>, floatDyn: seq<int>)

  /** compute_temporal_metrics. Missing durations default to 1 and a
      missing graph entry has no neighbours. With no activity at all the
      project-duration max has nothing to range over (Python's ValueError). */
  method ComputeTemporalMetrics(nActs: nat, durOpt: Option<seq<int>>, pg: map<int, Node>,
                                ghost rank: seq<int>, ghost prank: seq<nat>)
    returns (r: Result<Metrics, string>)
    requires durOpt.Some? ==> |durOpt.value| >= nActs
    requires RankOk(Completed(nActs, pg), rank) && PredRankOk(Completed(nActs, pg), prank)
    ensures r.Failure? <==> nActs == 0
    ensures r.Success? ==>
      var g := Completed(nActs, pg);
      var dur := PriorityRules.OrDefault(durOpt, nActs, 1);
      var pd := ProjectDuration(g, dur, prank);
      var m := r.value;
      |m.est| == |m.lst| == |m.lft| == |m.floatDyn| == nActs &&
      forall i :: 0 <= i < nActs ==>
        m.est[i] == Est(g, dur, prank, i + 1) &&
        m.lft[i] == Lft(g, dur, rank, pd, i + 1) &&
        m.lst[i] == Lst(g, dur, rank, pd, i + 1) &&
        m.floatDyn[i] == m.lst[i] - m.est[i]
  {
    var g := Completed(nActs, pg);
    var dur := PriorityRules.OrDefault(durOpt, nActs, 1);
    var est := EarliestStarts(g, dur, prank);
    if nActs == 0 {
      return Failure("max() arg is an empty sequence");
    }
    var pd := LatestFinish(g, dur, prank, est[..]);
    var lst, lft := LatestTimes(g, dur, rank, pd);
    var floatDyn := seq(nActs, i requires 0 <= i < nActs reads lst, est => lst[i] - est[i]);
    r := Success(Metrics(est[..], lst[..], lft[..], floatDyn));
  }
}
