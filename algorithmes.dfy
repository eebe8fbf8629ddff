/** The second priority-rule class (algorithmes.py AlgorithmesPriorite, lines
    8-162). It has the same ten rules as paste.py, but:
    - MTS counts successor paths rather than distinct successors;
    - TIMROS and TIMRES sort ascending;
    - the usage table defaults per activity instead of being filled in;
    - the precedence reordering appends what it cannot place instead of
      testing for a cycle first. */
module PriorityRanker {
  import opened Wrappers
  import opened ExtendedInt
  import opened StableSort
  import opened IdLists
  import opened PrecedenceGraph
  import opened PositionalWeight
  import opened Rankings
  import opened TopoOrder
  import PriorityRules

  /** compute_successors: an empty node for every activity 1..n the
      dictionary lacks. Entries already present, in range or not, stay as
      they are. */
  method CompleteGraph(n: nat, pg: map<int, Node>) returns (filled: map<int, Node>)
    ensures forall t :: t in filled <==> t in pg || 1 <= t <= n
    ensures forall t :: t in pg ==> filled[t] == pg[t]
    ensures forall t :: t in filled && t !in pg ==> filled[t] == Node([], [])
    ensures Completed(n, filled) == Completed(n, pg)
  {
    filled := pg;
    for t := 1 to n + 1
      invariant forall x :: x in filled <==> x in pg || 1 <= x < t
      invariant forall x :: x in pg ==> filled[x] == pg[x]
      invariant forall x :: x in filled && x !in pg ==> filled[x] == Node([], [])
    {
      if t !in filled {
        filled := filled[t := Node([], [])];
      }
    }
  }

  /** usage.get(t, d) */
  function UsageOr(usage: map<int, int>, t: int, d: int): (u: int)
    ensures t in usage ==> u == usage[t]
    ensures t !in usage ==> u == d
  {
    if t in usage then usage[t] else d
  }

  /** Which rules algorithmes.py sorts with reverse=True. */
  function Descending(rule: Rule): bool
  {
    rule in {HRPW, MTS, HRU1, HRU2}
  }

  /** The two classes agree on the direction of every rule except TIMROS
      and TIMRES. */
  lemma DirectionsDiffer(rule: Rule)
    ensures Descending(rule) != PriorityRules.Descending(rule) <==> rule in {TIMROS, TIMRES}
  {
  }

  class AlgorithmesPriorite {
    const n: nat
    const durations: seq<int>
    /** The instance's graph dictionary after compute_successors. */
    const precedenceGraph: map<int, Node>
    /** The same graph as a sequence: entry t - 1 is the node of activity t. */
    const graph: Graph
    const est: seq<int>
    const lst: seq<int>
    const lft: seq<int>
    const floatDyn: seq<Ext>
    const resourceUsage: map<int, int>
    /** A rank witnessing that the graph is acyclic; it bounds the recursions. */
    ghost const rank: seq<int>
    var hrpwMemo: map<int, int>

    /** The fixed data: n activities, a ranked graph over them, a duration
        each, and the dictionary holding a node for every activity. */
    ghost predicate Shape()
    {
      |graph| == n && RankOk(graph, rank) && |durations| >= n &&
      forall t :: 1 <= t <= n ==> t in precedenceGraph && precedenceGraph[t] == graph[t - 1]
    }

    /** The memo table only ever holds the right answers. */
    ghost predicate Valid()
      reads this
    {
      Shape() &&
      forall t :: t in hrpwMemo ==> 1 <= t <= n && hrpwMemo[t] == Hrpw(graph, durations, rank, t)
    }

    /** What __init__ leaves: every activity's weight is memoised. */
    ghost predicate HrpwFilled()
      reads this
    {
      forall t :: 1 <= t <= n ==> t in hrpwMemo
    }

    /** 'dur' must be present (KeyError otherwise) and hold a duration per
        activity (IndexError in the weight recursion otherwise); the graph
        must be acyclic, since on a cycle the weight recursion of __init__
        never ends (Python's RecursionError). InstanceData always holds
        'nActs' and a graph, so the KeyError for either is not modelled. */
    constructor (data: PriorityRules.InstanceData)
      requires data.dur.Some? && |data.dur.value| >= data.nActs
      requires WellFormed(Completed(data.nActs, data.precedenceGraph))
      requires Dag(Completed(data.nActs, data.precedenceGraph))
      ensures Valid() && HrpwFilled()
      ensures n == data.nActs && durations == data.dur.value
      ensures graph == Completed(data.nActs, data.precedenceGraph)
      ensures forall t :: t in precedenceGraph <==> t in data.precedenceGraph || 1 <= t <= n
      ensures est == PriorityRules.OrDefault(data.est, n, 0)
      ensures lst == PriorityRules.OrDefault(data.lst, n, 0) && lft == PriorityRules.OrDefault(data.lft, n, 0)
      ensures data.floatDyn.None? ==> floatDyn == seq(n, _ => PosInf)
      ensures data.floatDyn.Some? ==> (|floatDyn| == |data.floatDyn.value| &&
        forall i :: 0 <= i < |floatDyn| ==> floatDyn[i] == Fin(data.floatDyn.value[i]))
      ensures resourceUsage == data.resourceUsage
    {
      var filled := CompleteGraph(data.nActs, data.precedenceGraph);
      var g := Completed(data.nActs, filled);
      n := data.nActs;
      durations := data.dur.value;
      precedenceGraph := filled;
      graph := g;
      est := PriorityRules.OrDefault(data.est, data.nActs, 0);
      lst := PriorityRules.OrDefault(data.lst, data.nActs, 0);
      lft := PriorityRules.OrDefault(data.lft, data.nActs, 0);
      floatDyn := if data.floatDyn.Some? then
          seq(|data.floatDyn.value|, i requires 0 <= i < |data.floatDyn.value| => Fin(data.floatDyn.value[i]))
        else seq(data.nActs, _ => PosInf);
      resourceUsage := data.resourceUsage;
      ghost var r :| RankOk(g, r);
      rank := r;
      hrpwMemo := map[];
      new;
      assert forall t :: 1 <= t <= n ==> t in filled && filled[t] == g[t - 1];
      ComputeHrpwAll();
    }

    /** compute_hrpw_all: memoise the weight of every activity. */
    method ComputeHrpwAll()
      requires Valid()
      modifies this`hrpwMemo
      ensures Valid() && HrpwFilled()
    {
      for t := 1 to n + 1
        invariant Valid()
        invariant forall u :: 1 <= u < t ==> u in hrpwMemo
      {
        var w := ComputeHrpw(t);
      }
    }

    /** compute_hrpw: the memoised positional weight. */
    method ComputeHrpw(task: int) returns (v: int)
      requires Valid() && 1 <= task <= n
      modifies this`hrpwMemo
      ensures Valid() && v == Hrpw(graph, durations, rank, task)
      ensures task in hrpwMemo && old(hrpwMemo).Keys <= hrpwMemo.Keys
      decreases rank[task - 1], 1
    {
      if task in hrpwMemo {
        return hrpwMemo[task];
      }
      var succ := precedenceGraph[task].successors;
      if succ == [] {
        v := durations[task - 1];
      } else {
        var best := HeaviestSuccessor(task);
        v := durations[task - 1] + best;
      }
      hrpwMemo := hrpwMemo[task := v];
    }

    /** max(self.compute_hrpw(s) for s in succ) */
    method HeaviestSuccessor(task: int) returns (best: int)
      requires Valid() && 1 <= task <= n && graph[task - 1].successors != []
      modifies this`hrpwMemo
      ensures Valid() && old(hrpwMemo).Keys <= hrpwMemo.Keys
      ensures best == MaxOf(SuccWeights(graph, durations, rank, task))
      decreases rank[task - 1], 0, 1
    {
      ghost var ws := SuccWeights(graph, durations, rank, task);
      SuccWeightAt(graph, durations, rank, task, 0);
      best := ComputeHrpw(precedenceGraph[task].successors[0]);
      assert ws[..1] == [ws[0]];
      for i := 1 to |precedenceGraph[task].successors|
        invariant Valid() && old(hrpwMemo).Keys <= hrpwMemo.Keys
        invariant best == MaxOf(ws[..i])
      {
        best := HeavierSuccessor(task, i, best);
      }
      assert ws[..|graph[task - 1].successors|] == ws;
    }

    /** One step of that max: the running maximum against successor i. */
    method HeavierSuccessor(task: int, i: int, best: int) returns (next: int)
      requires Valid() && 1 <= task <= n && 0 < i < |Succ(graph, task)|
      requires best == MaxOf(SuccWeights(graph, durations, rank, task)[..i])
      modifies this`hrpwMemo
      ensures Valid() && old(hrpwMemo).Keys <= hrpwMemo.Keys
      ensures next == MaxOf(SuccWeights(graph, durations, rank, task)[..i + 1])
      decreases rank[task - 1], 0, 0
    {
      SuccWeightAt(graph, durations, rank, task, i);
      var h := ComputeHrpw(precedenceGraph[task].successors[i]);
      MaxOfSnoc(SuccWeights(graph, durations, rank, task), i);
      next := if h > best then h else best;
    }

    /** count_successors of sort_by_mts: the successor count plus the
        successors' own counts, so shared descendants are counted once per
        path. */
    method CountSuccessors(task: int) returns (total: int)
      requires Shape() && 1 <= task <= n
      ensures total == CountPaths(graph, rank, task)
      decreases rank[task - 1]
    {
      var succ := precedenceGraph[task].successors;
      total := |succ|;
      for k := 0 to |succ|
        invariant total == |succ| + SumPaths(graph, rank, task, k)
      {
        assert 1 <= succ[k] <= n && rank[succ[k] - 1] < rank[task - 1];
        var c := CountSuccessors(succ[k]);
        total := total + c;
      }
    }

    /** The data each rule looks up is there. */
    predicate Supports(rule: Rule)
    {
      (rule == LST ==> |lst| >= n) && (rule == LFT ==> |lft| >= n) &&
      (rule == STFD ==> |floatDyn| >= n) && (rule == EFT ==> |est| >= n)
    }

    /** The keys of the rules that read only the instance data. */
    function PlainKey(rule: Rule, t: int): Key
      requires Shape() && Supports(rule) && 1 <= t <= n && rule !in {HRPW, MTS, TIMROS, TIMRES}
    {
      match rule
      case LST => IntKey(lst[t - 1])
      case LFT => IntKey(lft[t - 1])
      case HRU1 => IntKey(UsageOr(resourceUsage, t, 0))
      case HRU2 => IntKey(UsageOr(resourceUsage, t, 0) * durations[t - 1])
      case STFD => ExtKey(floatDyn[t - 1])
      case EFT => IntKey(est[t - 1] + durations[t - 1])
    }

    /** The sort key of activity t under a rule. */
    ghost function KeyOf(rule: Rule, t: int): Key
      requires Shape() && Supports(rule) && 1 <= t <= n
    {
      match rule
      case HRPW => IntKey(Hrpw(graph, durations, rank, t))
      case MTS => IntKey(CountPaths(graph, rank, t))
      case TIMROS => Quotient(durations[t - 1], UsageOr(resourceUsage, t, 1))
      case TIMRES => IntKey(durations[t - 1] * UsageOr(resourceUsage, t, 1))
      case _ => PlainKey(rule, t)
    }

    ghost function Keys(rule: Rule): (keys: seq<Key>)
      requires Shape() && Supports(rule)
      ensures |keys| == n
    {
      seq(n, i requires 0 <= i < n => KeyOf(rule, i + 1))
    }

    /** The mts dictionary: one path count per activity in list order. */
    method MtsKeys() returns (keys: seq<Key>)
      requires Shape()
      ensures keys == Keys(MTS)
    {
      keys := [];
      for t := 1 to n + 1
        invariant |keys| == t - 1
        invariant forall i :: 0 <= i < t - 1 ==> keys[i] == KeyOf(MTS, i + 1)
      {
        var c := CountSuccessors(t);
        keys := keys + [IntKey(c)];
      }
    }

    /** The ratios and scores dictionaries of sort_by_timros and
        sort_by_timres: duration over, or times, the usage (default 1); a
        zero usage gives an infinite ratio. */
    method ScoreKeys(rule: Rule) returns (keys: seq<Key>)
      requires Shape() && rule in {TIMROS, TIMRES}
      ensures keys == Keys(rule)
    {
      keys := [];
      for t := 1 to n + 1
        invariant |keys| == t - 1
        invariant forall i :: 0 <= i < t - 1 ==> keys[i] == KeyOf(rule, i + 1)
      {
        var dur := durations[t - 1];
        var res := UsageOr(resourceUsage, t, 1);
        var key := if rule == TIMROS then Quotient(dur, res) else IntKey(dur * res);
        keys := keys + [key];
      }
    }

    /** The HRPW* keys, read from the memo table. */
    function HrpwKeys(): (keys: seq<Key>)
      reads this
      requires Valid() && HrpwFilled()
      ensures keys == Keys(HRPW)
    {
      seq(n, i requires 0 <= i < n && i + 1 in hrpwMemo reads this => IntKey(hrpwMemo[i + 1]))
    }

    /** The ten sort_by_* methods: the activities ordered by the rule's key
        in the rule's direction, ties by increasing identifier. */
    method SortBy(rule: Rule) returns (r: seq<int>)
      requires Valid() && HrpwFilled() && Supports(rule)
      ensures r == RankBy(Keys(rule), Descending(rule))
      ensures RankedBy(r, Keys(rule), Descending(rule))
    {
      var keys: seq<Key>;
      if rule == MTS {
        keys := MtsKeys();
      } else if rule == HRPW {
        keys := HrpwKeys();
      } else if rule == TIMROS || rule == TIMRES {
        keys := ScoreKeys(rule);
      } else {
        keys := seq(n, i requires 0 <= i < n => PlainKey(rule, i + 1));
        assert keys == Keys(rule);
      }
      r := RankBy(keys, Descending(rule));
      RankBySpec(keys, Descending(rule));
    }

    /** get_ordered_activities: an unknown name is refused (ValueError), and
        so is a rule whose list is shorter than the activity list (the
        IndexError of its key lookup); otherwise the rule's ranking,
        reordered so that every activity comes after its predecessors. On
        the acyclic graphs the constructor accepts, the leftovers
        _respect_precedence would append never arise. */
    method GetOrderedActivities(name: string) returns (r: Result<seq<int>, string>)
      requires Valid() && HrpwFilled()
      ensures r.Failure? <==> RuleNamed(name).None? || !Supports(RuleNamed(name).value)
      ensures r.Success? ==>
        var rule := RuleNamed(name).value;
        var ranking := RankBy(Keys(rule), Descending(rule));
        r.value == Peel(graph, ranking, Elems(ranking)).order &&
        multiset(r.value) == multiset(AllActivities(n)) &&
        AfterPreds(graph, r.value, Elems(AllActivities(n)))
    {
      var rule := RuleNamed(name);
      if rule.None? {
        return Failure("unknown rule: " + name);
      }
      if !Supports(rule.value) {
        return Failure("list index out of range");
      }
      var ordered := SortBy(rule.value);
      RankedByIsPermutation(ordered, Keys(rule.value), Descending(rule.value));
      assert Dag(graph) by {
        assert RankOk(graph, rank);
      }
      PermutationElems(ordered, AllActivities(n));
      var result := RespectPrecedence(graph, ordered);
      DagPeelsAll(graph, ordered, Elems(ordered));
      PeelTopological(graph, ordered, Elems(ordered));
      r := Success(result);
    }
  }

  /** On an acyclic graph the path count of algorithmes.py is never below
      the distinct-successor count of paste.py's MTS. */
  lemma MtsCountsAtLeastDistinct(g: Graph, rank: seq<int>, t: int)
    requires RankOk(g, rank) && 1 <= t <= |g|
    ensures CountPaths(g, rank, t) >= |ReachSet(g, rank, t) - {t}|
  {
    CountPathsCoversReach(g, rank, t);
  }
}
