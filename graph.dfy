/** The precedence graph of the priority-rule modules: activities numbered
    1..n, each with a successor and a predecessor list
    (paste.py parse_dzn_file, lines 394-411; the `precedence_graph` dict of
    paste.py and algorithmes.py). The graph is a sequence whose entry t - 1
    belongs to activity t. */
module PrecedenceGraph {

  datatype Node = Node(successors: seq<int>, predecessors: seq<int>)

  type Graph = seq<Node>

  predicate IsActivity(g: Graph, t: int)
  {
    1 <= t <= |g|
  }

  function Succ(g: Graph, t: int): seq<int>
    requires IsActivity(g, t)
  {
    g[t - 1].successors
  }

  function Pred(g: Graph, t: int): seq<int>
    requires IsActivity(g, t)
  {
    g[t - 1].predecessors
  }

  /** Every listed neighbour is an activity of the graph. */
  predicate WellFormed(g: Graph)
  {
    forall i, k :: 0 <= i < |g| && 0 <= k < |g[i].successors| ==> 1 <= g[i].successors[k] <= |g|
  }

  ghost predicate PredsInRange(g: Graph)
  {
    forall i, k :: 0 <= i < |g| && 0 <= k < |g[i].predecessors| ==> 1 <= g[i].predecessors[k] <= |g|
  }

  /** The predecessor lists are the successor edges read backwards. */
  ghost predicate Mirrored(g: Graph)
  {
    forall a, b :: IsActivity(g, a) && IsActivity(g, b) ==> (b in Succ(g, a) <==> a in Pred(g, b))
  }

  // ---- acyclicity ----

  /** A rank in 0..n-1 that strictly drops along every successor edge. */
  ghost predicate RankOk(g: Graph, rank: seq<int>)
  {
    |rank| == |g| && WellFormed(g) &&
    (forall i :: 0 <= i < |g| ==> 0 <= rank[i] < |g|) &&
    (forall i, k :: 0 <= i < |g| && 0 <= k < |g[i].successors| ==>
      rank[g[i].successors[k] - 1] < rank[i])
  }

  /** networkx's is_directed_acyclic_graph, stated as the existence of a rank. */
  ghost predicate Dag(g: Graph)
  {
    exists rank :: RankOk(g, rank)
  }

  /** A walk along successor edges. */
  ghost predicate Walk(g: Graph, w: seq<int>)
  {
    (forall k :: 0 <= k < |w| ==> IsActivity(g, w[k])) &&
    (forall k :: 0 < k < |w| ==> w[k] in Succ(g, w[k - 1]))
  }

  /** A closed walk of at least one edge. */
  ghost predicate Cycle(g: Graph, w: seq<int>)
  {
    |w| >= 2 && Walk(g, w) && w[0] == w[|w| - 1]
  }

  lemma {:induction false} WalkDescends(g: Graph, rank: seq<int>, w: seq<int>)
    requires RankOk(g, rank) && Walk(g, w) && |w| >= 2
    ensures rank[w[|w| - 1] - 1] < rank[w[0] - 1]
  {
    var m := |w| - 1;
    var a := w[m - 1];
    var k :| 0 <= k < |Succ(g, a)| && Succ(g, a)[k] == w[m];
    assert g[a - 1].successors[k] == w[m];
    if m > 1 {
      WalkDescends(g, rank, w[..m]);
    }
  }

  /** A ranked graph has no cycle. */
  lemma DagHasNoCycle(g: Graph, w: seq<int>)
    requires Dag(g)
    ensures !Cycle(g, w)
  {
    if Cycle(g, w) {
      var rank :| RankOk(g, rank);
      WalkDescends(g, rank, w);
    }
  }

  /** _initialize_precedence_graph / compute_successors: activities 1..n
      keep their entry of the given dictionary; those without one get empty
      lists. */
  function Completed(n: nat, m: map<int, Node>): (g: Graph)
    ensures |g| == n
  {
    seq(n, i => if i + 1 in m then m[i + 1] else Node([], []))
  }

  // ---- construction from the pred/succ arrays ----

  /** One empty node per activity 1..n. */
  function EmptyGraph(n: int): (g: Graph)
    ensures |g| == (if n < 0 then 0 else n)
    ensures forall i :: 0 <= i < |g| ==> g[i] == Node([], [])
  {
    if n <= 0 then [] else seq(n, _ => Node([], []))
  }

  /** The edge p -> s, added only when both ends are activities. */
  function AddEdge(g: Graph, p: int, s: int): Graph
  {
    if IsActivity(g, p) && IsActivity(g, s) then
      var g1 := g[p - 1 := g[p - 1].(successors := g[p - 1].successors + [s])];
      g1[s - 1 := g1[s - 1].(predecessors := g1[s - 1].predecessors + [p])]
    else g
  }

  /** The graph after the first k pairs of zip(pred, succ). */
  function Built(n: int, pred: seq<int>, succ: seq<int>, k: nat): Graph
    requires k <= |pred| && k <= |succ|
  {
    if k == 0 then EmptyGraph(n) else AddEdge(Built(n, pred, succ, k - 1), pred[k - 1], succ[k - 1])
  }

  function Pairs(pred: seq<int>, succ: seq<int>): nat
  {
    if |pred| <= |succ| then |pred| else |succ|
  }

  /** An arrow listed in the first k pairs between two activities 1..n. */
  ghost predicate Listed(n: int, pred: seq<int>, succ: seq<int>, k: nat, a: int, b: int)
    requires k <= |pred| && k <= |succ|
  {
    1 <= a <= n && 1 <= b <= n && exists j :: 0 <= j < k && pred[j] == a && succ[j] == b
  }

  /** parse_dzn_file's graph building: a missing pred or succ array adds no
      edge, as an empty one does. */
  method BuildGraph(n: int, pred: seq<int>, succ: seq<int>) returns (g: Graph)
    ensures g == Built(n, pred, succ, Pairs(pred, succ))
  {
    g := EmptyGraph(n);
    var m := Pairs(pred, succ);
    for k := 0 to m
      invariant g == Built(n, pred, succ, k)
    {
      var p, s := pred[k], succ[k];
      if 1 <= p <= |g| && 1 <= s <= |g| {
        g := g[p - 1 := g[p - 1].(successors := g[p - 1].successors + [s])];
        g := g[s - 1 := g[s - 1].(predecessors := g[s - 1].predecessors + [p])];
      }
    }
  }

  lemma AddEdgeLists(g: Graph, p: int, s: int, t: int)
    requires IsActivity(g, t)
    ensures |AddEdge(g, p, s)| == |g|
    ensures Succ(AddEdge(g, p, s), t) ==
      Succ(g, t) + (if t == p && IsActivity(g, s) then [s] else [])
    ensures Pred(AddEdge(g, p, s), t) ==
      Pred(g, t) + (if t == s && IsActivity(g, p) then [p] else [])
  {
  }

  /** The built graph has a node per activity, every neighbour is an
      activity, and b follows a exactly when the arrays list the pair (a, b). */
  lemma {:induction false} BuiltEdges(n: int, pred: seq<int>, succ: seq<int>, k: nat)
    requires k <= |pred| && k <= |succ|
    ensures var g := Built(n, pred, succ, k);
      |g| == (if n < 0 then 0 else n) && WellFormed(g) && PredsInRange(g) &&
      forall a, b :: IsActivity(g, a) && IsActivity(g, b) ==>
        (b in Succ(g, a) <==> Listed(n, pred, succ, k, a, b)) &&
        (a in Pred(g, b) <==> Listed(n, pred, succ, k, a, b))
  {
    var g := Built(n, pred, succ, k);
    if k > 0 {
      BuiltEdges(n, pred, succ, k - 1);
      var h := Built(n, pred, succ, k - 1);
      var p, s := pred[k - 1], succ[k - 1];
      assert g == AddEdge(h, p, s);
      forall t | IsActivity(h, t)
        ensures Succ(g, t) == Succ(h, t) + (if t == p && IsActivity(h, s) then [s] else [])
        ensures Pred(g, t) == Pred(h, t) + (if t == s && IsActivity(h, p) then [p] else [])
      {
        AddEdgeLists(h, p, s, t);
      }
      forall i, j | 0 <= i < |g| && 0 <= j < |g[i].successors| ensures 1 <= g[i].successors[j] <= |g| {
        assert Succ(g, i + 1) == g[i].successors;
      }
      forall i, j | 0 <= i < |g| && 0 <= j < |g[i].predecessors| ensures 1 <= g[i].predecessors[j] <= |g| {
        assert Pred(g, i + 1) == g[i].predecessors;
      }
      forall a, b | IsActivity(g, a) && IsActivity(g, b)
        ensures (b in Succ(g, a) <==> Listed(n, pred, succ, k, a, b)) &&
                (a in Pred(g, b) <==> Listed(n, pred, succ, k, a, b))
      {
        ListedStep(n, pred, succ, k, a, b);
      }
    }
  }

  /** The first k pairs list (a, b) when the first k - 1 do or pair k - 1 is it. */
  lemma ListedStep(n: int, pred: seq<int>, succ: seq<int>, k: nat, a: int, b: int)
    requires 0 < k <= |pred| && k <= |succ|
    ensures Listed(n, pred, succ, k, a, b) <==>
      Listed(n, pred, succ, k - 1, a, b) || (1 <= a <= n && 1 <= b <= n && pred[k - 1] == a && succ[k - 1] == b)
  {
    if Listed(n, pred, succ, k, a, b) && !Listed(n, pred, succ, k - 1, a, b) {
      var j :| 0 <= j < k && pred[j] == a && succ[j] == b;
      assert j == k - 1;
    }
    if Listed(n, pred, succ, k - 1, a, b) {
      var j :| 0 <= j < k - 1 && pred[j] == a && succ[j] == b;
      assert Listed(n, pred, succ, k, a, b);
    }
  }

  /** The built graph's predecessor lists mirror its successor lists. */
  lemma BuiltMirrored(n: int, pred: seq<int>, succ: seq<int>)
    ensures Mirrored(Built(n, pred, succ, Pairs(pred, succ)))
    ensures WellFormed(Built(n, pred, succ, Pairs(pred, succ)))
    ensures PredsInRange(Built(n, pred, succ, Pairs(pred, succ)))
  {
    BuiltEdges(n, pred, succ, Pairs(pred, succ));
  }
}
