/** The graph measures behind the HRPW* and MTS rules, as specifications over
    a ranked (acyclic) precedence graph: the positional weight of an activity
    (its duration plus the heaviest weight among its successors), the set of
    activities reachable from it, and algorithmes.py's path count. The
    recursions follow successor edges, so the rank bounds them. */
module PositionalWeight {
  import opened PrecedenceGraph

  /** Python's max over a non-empty list. */
  function MaxOf(xs: seq<int>): (m: int)
    requires xs != []
    ensures m in xs
    ensures forall k :: 0 <= k < |xs| ==> xs[k] <= m
  {
    if |xs| == 1 then xs[0]
    else
      var m0 := MaxOf(xs[..|xs| - 1]);
      assert forall k :: 0 <= k < |xs| - 1 ==> xs[..|xs| - 1][k] == xs[k];
      if xs[|xs| - 1] > m0 then xs[|xs| - 1] else m0
  }

  lemma MaxOfSnoc(xs: seq<int>, i: nat)
    requires 0 < i < |xs|
    ensures MaxOf(xs[..i + 1]) == if xs[i] > MaxOf(xs[..i]) then xs[i] else MaxOf(xs[..i])
  {
    assert xs[..i + 1][..i] == xs[..i];
  }

  /** Python's min over a non-empty list. */
  function MinOf(xs: seq<int>): (m: int)
    requires xs != []
    ensures m in xs
    ensures forall k :: 0 <= k < |xs| ==> m <= xs[k]
  {
    if |xs| == 1 then xs[0]
    else
      var m0 := MinOf(xs[..|xs| - 1]);
      assert forall k :: 0 <= k < |xs| - 1 ==> xs[..|xs| - 1][k] == xs[k];
      if xs[|xs| - 1] < m0 then xs[|xs| - 1] else m0
  }

  lemma MinOfSnoc(xs: seq<int>, i: nat)
    requires 0 < i < |xs|
    ensures MinOf(xs[..i + 1]) == if xs[i] < MinOf(xs[..i]) then xs[i] else MinOf(xs[..i])
  {
    assert xs[..i + 1][..i] == xs[..i];
  }

  // ---- HRPW* ----

  /** The positional weight: own duration for an activity without successors,
      otherwise own duration plus the largest weight among the successors. */
  ghost function Hrpw(g: Graph, dur: seq<int>, rank: seq<int>, t: int): int
    requires RankOk(g, rank) && |dur| >= |g| && 1 <= t <= |g|
    decreases rank[t - 1]
  {
    var ss := g[t - 1].successors;
    if ss == [] then dur[t - 1]
    else dur[t - 1] + MaxOf(SuccWeights(g, dur, rank, t))
  }

  /** The weights of t's successors, in list order. */
  ghost function SuccWeights(g: Graph, dur: seq<int>, rank: seq<int>, t: int): (ws: seq<int>)
    requires RankOk(g, rank) && |dur| >= |g| && 1 <= t <= |g|
    ensures |ws| == |g[t - 1].successors|
    decreases rank[t - 1], 0
  {
    var ss := g[t - 1].successors;
    seq(|ss|, i requires 0 <= i < |ss| => Hrpw(g, dur, rank, ss[i]))
  }

  /** The i-th successor of t is an activity of lower rank, and its weight
      is the i-th entry of SuccWeights. */
  lemma SuccWeightAt(g: Graph, dur: seq<int>, rank: seq<int>, t: int, i: int)
    requires RankOk(g, rank) && |dur| >= |g| && 1 <= t <= |g| && 0 <= i < |Succ(g, t)|
    ensures 1 <= Succ(g, t)[i] <= |g| && rank[Succ(g, t)[i] - 1] < rank[t - 1]
    ensures SuccWeights(g, dur, rank, t)[i] == Hrpw(g, dur, rank, Succ(g, t)[i])
  {
  }

  /** An activity without successors weighs its own duration. */
  lemma HrpwSink(g: Graph, dur: seq<int>, rank: seq<int>, t: int)
    requires RankOk(g, rank) && |dur| >= |g| && 1 <= t <= |g| && Succ(g, t) == []
    ensures Hrpw(g, dur, rank, t) == dur[t - 1]
  {
  }

  /** Every activity outweighs each of its successors by its own duration. */
  lemma HrpwAboveSucc(g: Graph, dur: seq<int>, rank: seq<int>, t: int, k: int)
    requires RankOk(g, rank) && |dur| >= |g| && 1 <= t <= |g| && 0 <= k < |Succ(g, t)|
    ensures Hrpw(g, dur, rank, t) >= dur[t - 1] + Hrpw(g, dur, rank, Succ(g, t)[k])
  {
    var ws := SuccWeights(g, dur, rank, t);
    assert ws[k] == Hrpw(g, dur, rank, Succ(g, t)[k]);
  }

  /** ... and matches its heaviest successor exactly. */
  lemma HrpwAttained(g: Graph, dur: seq<int>, rank: seq<int>, t: int) returns (k: int)
    requires RankOk(g, rank) && |dur| >= |g| && 1 <= t <= |g| && Succ(g, t) != []
    ensures 0 <= k < |Succ(g, t)|
    ensures Hrpw(g, dur, rank, t) == dur[t - 1] + Hrpw(g, dur, rank, Succ(g, t)[k])
  {
    var ws := SuccWeights(g, dur, rank, t);
    k :| 0 <= k < |ws| && ws[k] == MaxOf(ws);
  }

  /** With non-negative durations an activity weighs at least its own
      duration. */
  lemma {:induction false} HrpwAtLeastDuration(g: Graph, dur: seq<int>, rank: seq<int>, t: int)
    requires RankOk(g, rank) && |dur| >= |g| && 1 <= t <= |g|
    requires forall i :: 0 <= i < |g| ==> dur[i] >= 0
    ensures Hrpw(g, dur, rank, t) >= dur[t - 1]
    decreases rank[t - 1]
  {
    var ss := g[t - 1].successors;
    if ss != [] {
      HrpwAtLeastDuration(g, dur, rank, ss[0]);
      HrpwAboveSucc(g, dur, rank, t, 0);
    }
  }

  // ---- reachability (paste.py MTS) ----

  /** t and every activity reachable from t along successor edges. */
  ghost function ReachSet(g: Graph, rank: seq<int>, t: int): set<int>
    requires RankOk(g, rank) && 1 <= t <= |g|
    decreases rank[t - 1], 1
  {
    {t} + ReachFirst(g, rank, t, |Succ(g, t)|)
  }

  /** What the first k successors of t reach. */
  ghost function ReachFirst(g: Graph, rank: seq<int>, t: int, k: nat): set<int>
    requires RankOk(g, rank) && 1 <= t <= |g| && k <= |Succ(g, t)|
    decreases rank[t - 1], 0, k
  {
    if k == 0 then {} else ReachFirst(g, rank, t, k - 1) + ReachSet(g, rank, Succ(g, t)[k - 1])
  }

  lemma {:induction false} ReachFirstWitness(g: Graph, rank: seq<int>, t: int, k: nat, x: int) returns (j: int)
    requires RankOk(g, rank) && 1 <= t <= |g| && k <= |Succ(g, t)|
    requires x in ReachFirst(g, rank, t, k)
    ensures 0 <= j < k && x in ReachSet(g, rank, Succ(g, t)[j])
  {
    if x in ReachSet(g, rank, Succ(g, t)[k - 1]) {
      j := k - 1;
    } else {
      j := ReachFirstWitness(g, rank, t, k - 1, x);
    }
  }

  lemma {:induction false} ReachFirstHas(g: Graph, rank: seq<int>, t: int, k: nat, j: int)
    requires RankOk(g, rank) && 1 <= t <= |g| && k <= |Succ(g, t)| && 0 <= j < k
    ensures ReachSet(g, rank, Succ(g, t)[j]) <= ReachFirst(g, rank, t, k)
  {
    if j < k - 1 {
      ReachFirstHas(g, rank, t, k - 1, j);
    }
  }

  lemma {:induction false} ReachInRange(g: Graph, rank: seq<int>, t: int)
    requires RankOk(g, rank) && 1 <= t <= |g|
    ensures forall x :: x in ReachSet(g, rank, t) ==> 1 <= x <= |g|
    decreases rank[t - 1]
  {
    forall x | x in ReachSet(g, rank, t) ensures 1 <= x <= |g| {
      if x != t {
        var j := ReachFirstWitness(g, rank, t, |Succ(g, t)|, x);
        ReachInRange(g, rank, Succ(g, t)[j]);
      }
    }
  }

  /** The reachable set is closed under successor edges. */
  lemma {:induction false} ReachClosed(g: Graph, rank: seq<int>, t: int, v: int, k: int)
    requires RankOk(g, rank) && 1 <= t <= |g|
    requires v in ReachSet(g, rank, t) && 1 <= v <= |g| && 0 <= k < |Succ(g, v)|
    ensures Succ(g, v)[k] in ReachSet(g, rank, t)
    decreases rank[t - 1]
  {
    if v == t {
      ReachFirstHas(g, rank, t, |Succ(g, t)|, k);
    } else {
      var j := ReachFirstWitness(g, rank, t, |Succ(g, t)|, v);
      ReachClosed(g, rank, Succ(g, t)[j], v, k);
      ReachFirstHas(g, rank, t, |Succ(g, t)|, j);
    }
  }

  /** Closed under successor edges, among the activities. */
  ghost predicate SuccClosed(g: Graph, c: set<int>)
  {
    forall v, k :: 1 <= v <= |g| && 0 <= k < |Succ(g, v)| && v in c ==> Succ(g, v)[k] in c
  }

  /** Any set holding t and closed under successor edges holds everything
      reachable from t. */
  lemma {:induction false} ReachLeast(g: Graph, rank: seq<int>, t: int, c: set<int>)
    requires RankOk(g, rank) && 1 <= t <= |g| && t in c && SuccClosed(g, c)
    ensures ReachSet(g, rank, t) <= c
    decreases rank[t - 1]
  {
    forall x | x in ReachSet(g, rank, t) ensures x in c {
      if x != t {
        var j := ReachFirstWitness(g, rank, t, |Succ(g, t)|, x);
        ReachLeast(g, rank, Succ(g, t)[j], c);
      }
    }
  }

  // ---- path counting (algorithmes.py MTS) ----

  /** count_successors: the direct successors plus, recursively, the count
      of each; an activity reached along several paths counts once per path. */
  function CountPaths(g: Graph, ghost rank: seq<int>, t: int): nat
    requires RankOk(g, rank) && 1 <= t <= |g|
    decreases rank[t - 1], 1
  {
    |Succ(g, t)| + SumPaths(g, rank, t, |Succ(g, t)|)
  }

  /** The counts of t's first k successors, added up. */
  function SumPaths(g: Graph, ghost rank: seq<int>, t: int, k: nat): nat
    requires RankOk(g, rank) && 1 <= t <= |g| && k <= |Succ(g, t)|
    decreases rank[t - 1], 0, k
  {
    if k == 0 then 0
    else SumPaths(g, rank, t, k - 1) + CountPaths(g, rank, Succ(g, t)[k - 1])
  }

  lemma {:induction false} SumPathsBound(g: Graph, rank: seq<int>, t: int, k: nat)
    requires RankOk(g, rank) && 1 <= t <= |g| && k <= |Succ(g, t)|
    requires forall j :: 0 <= j < k ==>
      |ReachSet(g, rank, Succ(g, t)[j])| <= CountPaths(g, rank, Succ(g, t)[j]) + 1
    ensures |ReachFirst(g, rank, t, k)| <= k + SumPaths(g, rank, t, k)
  {
    if k > 0 {
      SumPathsBound(g, rank, t, k - 1);
      var a, b := ReachFirst(g, rank, t, k - 1), ReachSet(g, rank, Succ(g, t)[k - 1]);
      assert |a + b| <= |a| + |b| by {
        assert a + b == a + (b - a);
        assert |b - a| <= |b| by {
          assert b == (b - a) + (b * a);
        }
      }
    }
  }

  /** The path count of algorithmes.py is at least the number of distinct
      activities that paste.py's breadth-first search counts. */
  lemma {:induction false} CountPathsCoversReach(g: Graph, rank: seq<int>, t: int)
    requires RankOk(g, rank) && 1 <= t <= |g|
    ensures |ReachSet(g, rank, t) - {t}| <= CountPaths(g, rank, t)
    decreases rank[t - 1]
  {
    var n := |Succ(g, t)|;
    forall j | 0 <= j < n
      ensures |ReachSet(g, rank, Succ(g, t)[j])| <= CountPaths(g, rank, Succ(g, t)[j]) + 1
    {
      var s := Succ(g, t)[j];
      CountPathsCoversReach(g, rank, s);
      assert ReachSet(g, rank, s) == (ReachSet(g, rank, s) - {s}) + {s};
    }
    SumPathsBound(g, rank, t, n);
    SubsetSize(ReachSet(g, rank, t) - {t}, ReachFirst(g, rank, t, n));
  }

  lemma SubsetSize(a: set<int>, b: set<int>)
    requires a <= b
    ensures |a| <= |b|
  {
    assert b == a + (b - a);
  }
}
