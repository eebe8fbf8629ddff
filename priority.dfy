/** The priority-rule class of paste.py (MSRCPSPPriorityAlgorithms, lines
    10-318): it memoises the positional weight of every activity when built,
    counts reachable successors on demand with a breadth-first search,
    ranks the activities by one of ten rules and then reorders the ranking
    so that every activity follows its predecessors. */
module PriorityRules {
  import opened Wrappers
  import opened ExtendedInt
  import opened StableSort
  import opened IdLists
  import opened PrecedenceGraph
  import opened PositionalWeight
  import opened Rankings
  import opened TopoOrder

  /** The instance dictionary; None stands for an absent key, whose default
      the constructor supplies. For paste.py's class an absent graph, usage
      table or skill matrix behaves as an empty one; algorithmes.py's class
      reads the graph without a default, which this record cannot express. */
  datatype InstanceData = InstanceData(
    nActs: nat,
    dur: Option<seq<int>>,
    precedenceGraph: map<int, Node>,
    est: Option<seq<int>>,
    lst: Option<seq<int>>,
    lft: Option<seq<int>>,
    floatDyn: Option<seq<int>>,
    resourceUsage: map<int, int>,
    sreq: seq<seq<int>>,
    mastery: seq<seq<int>>)

  /** data.get(key, [d] * n) */
  function OrDefault(v: Option<seq<int>>, n: nat, d: int): (r: seq<int>)
    ensures v.None? ==> |r| == n && forall i :: 0 <= i < n ==> r[i] == d
    ensures v.Some? ==> r == v.value
  {
    if v.Some? then v.value else seq(n, _ => d)
  }

  /** The usage table _compute_resource_metrics installs when none is given. */
  function UnitUsage(n: nat): (m: map<int, int>)
    ensures forall t :: t in m <==> t in AllActivities(n)
    ensures forall t :: t in m ==> m[t] == 1
  {
    map t | t in AllActivities(n) :: 1
  }

  function Max1(x: int): int
  {
    if x > 1 then x else 1
  }

  // ---- skill data ----

  /** The skills a requirement row demands: its non-zero (truthy) entries. */
  ghost function DemandedSkills(req: seq<int>): set<int>
  {
    set i | 0 <= i < |req| && req[i] != 0
  }

  lemma DemandedSkillsSnoc(req: seq<int>)
    requires req != []
    ensures DemandedSkills(req) ==
      DemandedSkills(req[..|req| - 1]) + (if req[|req| - 1] != 0 then {|req| - 1} else {})
  {
    var init := req[..|req| - 1];
    assert forall i :: 0 <= i < |init| ==> init[i] == req[i];
  }

  /** sum(1 for skill in required_skills if skill) */
  function CountDemanded(req: seq<int>): (c: nat)
    ensures c == |DemandedSkills(req)|
  {
    if req == [] then 0
    else
      DemandedSkillsSnoc(req);
      CountDemanded(req[..|req| - 1]) + (if req[|req| - 1] != 0 then 1 else 0)
  }

  /** A resource whose mastery row covers every demanded skill. */
  predicate CanDo(masteries: seq<int>, req: seq<int>)
    requires |masteries| >= |req|
  {
    forall i :: 0 <= i < |req| ==> req[i] == 0 || masteries[i] != 0
  }

  /** Every mastery row is as long as every requirement row, as in the
      nRes x nSkills and nActs x nSkills matrices of an instance file. */
  predicate RowsFit(mastery: seq<seq<int>>, req: seq<int>)
  {
    forall r :: 0 <= r < |mastery| ==> |mastery[r]| >= |req|
  }

  ghost function Capable(mastery: seq<seq<int>>, req: seq<int>): set<int>
    requires RowsFit(mastery, req)
  {
    set r | 0 <= r < |mastery| && CanDo(mastery[r], req)
  }

  lemma CapableSnoc(mastery: seq<seq<int>>, req: seq<int>)
    requires RowsFit(mastery, req) && mastery != []
    ensures var init := mastery[..|mastery| - 1];
      RowsFit(init, req) &&
      Capable(mastery, req) == Capable(init, req) +
        (if CanDo(mastery[|mastery| - 1], req) then {|mastery| - 1} else {})
  {
    var init := mastery[..|mastery| - 1];
    assert forall r :: 0 <= r < |init| ==> init[r] == mastery[r];
  }

  /** The enumerate loop counting the resources that can do the task. */
  function CountCapable(mastery: seq<seq<int>>, req: seq<int>): (c: nat)
    requires RowsFit(mastery, req)
    ensures c == |Capable(mastery, req)|
  {
    if mastery == [] then 0
    else
      CapableSnoc(mastery, req);
      CountCapable(mastery[..|mastery| - 1], req) + (if CanDo(mastery[|mastery| - 1], req) then 1 else 0)
  }

  /** Every successor of a visited activity is visited or still queued. */
  ghost predicate Frontier(g: Graph, visited: set<int>, queue: seq<int>)
  {
    forall v, k :: 1 <= v <= |g| && 0 <= k < |Succ(g, v)| && v in visited ==>
      Succ(g, v)[k] in visited || Succ(g, v)[k] in queue
  }

  lemma FrontierSkip(g: Graph, visited: set<int>, current: int, rest: seq<int>)
    requires Frontier(g, visited, [current] + rest) && current in visited
    ensures Frontier(g, visited, rest)
  {
    forall v, k | 1 <= v <= |g| && 0 <= k < |Succ(g, v)| && v in visited
      ensures Succ(g, v)[k] in visited || Succ(g, v)[k] in rest
    {
      assert Succ(g, v)[k] in [current] + rest ==> Succ(g, v)[k] == current || Succ(g, v)[k] in rest;
    }
  }

  lemma FrontierVisit(g: Graph, visited: set<int>, current: int, rest: seq<int>)
    requires Frontier(g, visited, [current] + rest) && 1 <= current <= |g|
    ensures Frontier(g, visited + {current}, rest + Succ(g, current))
  {
    forall v, k | 1 <= v <= |g| && 0 <= k < |Succ(g, v)| && v in visited + {current}
      ensures Succ(g, v)[k] in visited + {current} || Succ(g, v)[k] in rest + Succ(g, current)
    {
      if v == current {
        assert Succ(g, v)[k] == (rest + Succ(g, current))[|rest| + k];
      } else {
        assert Succ(g, v)[k] in [current] + rest ==> Succ(g, v)[k] == current || Succ(g, v)[k] in rest;
      }
    }
  }

  /** The breadth-first search of _count_total_successors: pop the front of
      the queue, skip it if already visited, otherwise mark it and queue its
      successors. It ends with exactly the activities reachable from the
      task. */
  method Search(g: Graph, ghost rank: seq<int>, task: int) returns (visited: set<int>)
    requires RankOk(g, rank) && 1 <= task <= |g|
    ensures visited == ReachSet(g, rank, task)
  {
    ghost var reach := ReachSet(g, rank, task);
    ghost var all := Elems(AllActivities(|g|));
    assert |all| == |g| by {
      NoDupSetSize(AllActivities(|g|));
    }
    ReachInRange(g, rank, task);
    visited := {};
    var queue: seq<int> := [task];
    while queue != []
      invariant forall x :: x in reach ==> 1 <= x <= |g|
      invariant visited <= reach && visited <= all && |visited| <= |g|
      invariant forall q :: q in queue ==> q in reach
      invariant task in visited || task in queue
      invariant Frontier(g, visited, queue)
      decreases |g| - |visited|, |queue|
    {
      var current := queue[0];
      var rest := queue[1..];
      assert queue == [current] + rest;
      assert current in reach;
      if current in visited {
        FrontierSkip(g, visited, current, rest);
        queue := rest;
        continue;
      }
      FrontierVisit(g, visited, current, rest);
      assert current in all by {
        assert AllActivities(|g|)[current - 1] == current;
      }
      SubsetSize(visited + {current}, all);
      visited := visited + {current};
      var successors := g[current - 1].successors;
      forall k | 0 <= k < |successors| ensures successors[k] in reach {
        ReachClosed(g, rank, task, current, k);
      }
      queue := rest + successors;
    }
    ReachLeast(g, rank, task, visited);
  }

  /** Which rules paste.py sorts with reverse=True. */
  function Descending(rule: Rule): bool
  {
    rule in {HRPW, MTS, TIMROS, HRU1, TIMRES, HRU2}
  }

  class PriorityAlgorithms {
    const n: nat
    const durations: seq<int>
    const graph: Graph
    const est: seq<int>
    const lst: seq<int>
    const lft: seq<int>
    const eft: seq<int>
    const floatDyn: seq<Ext>
    const resourceUsage: map<int, int>
    const skillRequirements: seq<seq<int>>
    const mastery: seq<seq<int>>
    /** A rank witnessing that the graph is acyclic; it bounds the recursions. */
    ghost const rank: seq<int>
    var hrpwMemo: map<int, int>
    var successorsMemo: map<int, int>

    /** The fixed data: n activities, a ranked graph over them, a duration
        and an earliest finish each. */
    ghost predicate Shape()
    {
      |graph| == n && RankOk(graph, rank) && |durations| >= n && |eft| == n
    }

    /** The memo tables only ever hold the right answers. */
    ghost predicate Valid()
      reads this
    {
      Shape() &&
      (forall t :: t in hrpwMemo ==> 1 <= t <= n && hrpwMemo[t] == Hrpw(graph, durations, rank, t)) &&
      (forall t :: t in successorsMemo ==>
        1 <= t <= n && successorsMemo[t] == |ReachSet(graph, rank, t) - {t}|)
    }

    /** What __init__ leaves: every activity's weight is memoised. */
    ghost predicate HrpwFilled()
      reads this
    {
      forall t :: 1 <= t <= n ==> t in hrpwMemo
    }

    /** The graph must be acyclic: on a cycle the weight recursion of
        __init__ never ends (Python's RecursionError). */
    constructor (data: InstanceData)
      requires WellFormed(Completed(data.nActs, data.precedenceGraph))
      requires Dag(Completed(data.nActs, data.precedenceGraph))
      requires data.dur.Some? ==> |data.dur.value| >= data.nActs
      requires data.est.Some? ==> |data.est.value| >= data.nActs
      ensures Valid() && HrpwFilled()
      ensures n == data.nActs && graph == Completed(data.nActs, data.precedenceGraph)
      ensures durations == OrDefault(data.dur, n, 1) && est == OrDefault(data.est, n, 0)
      ensures lst == OrDefault(data.lst, n, 0) && lft == OrDefault(data.lft, n, 0)
      ensures forall i :: 0 <= i < n ==> eft[i] == est[i] + durations[i]
      ensures data.floatDyn.None? ==> floatDyn == seq(n, _ => PosInf)
      ensures data.floatDyn.Some? ==> (|floatDyn| == |data.floatDyn.value| &&
        forall i :: 0 <= i < |floatDyn| ==> floatDyn[i] == Fin(data.floatDyn.value[i]))
      ensures resourceUsage == if data.resourceUsage == map[] then UnitUsage(n) else data.resourceUsage
      ensures skillRequirements == data.sreq && mastery == data.mastery
      ensures successorsMemo == map[]
    {
      var g := Completed(data.nActs, data.precedenceGraph);
      var d := OrDefault(data.dur, data.nActs, 1);
      var e := OrDefault(data.est, data.nActs, 0);
      n := data.nActs;
      graph := g;
      durations := d;
      est := e;
      lst := OrDefault(data.lst, data.nActs, 0);
      lft := OrDefault(data.lft, data.nActs, 0);
      eft := seq(data.nActs, i requires 0 <= i < data.nActs => e[i] + d[i]);
      floatDyn := if data.floatDyn.Some? then
          seq(|data.floatDyn.value|, i requires 0 <= i < |data.floatDyn.value| => Fin(data.floatDyn.value[i]))
        else seq(data.nActs, _ => PosInf);
      resourceUsage := if data.resourceUsage == map[] then UnitUsage(data.nActs) else data.resourceUsage;
      skillRequirements := data.sreq;
      mastery := data.mastery;
      ghost var r :| RankOk(g, r);
      rank := r;
      hrpwMemo := map[];
      successorsMemo := map[];
      new;
      for t := 1 to n + 1
        invariant Valid() && successorsMemo == map[]
        invariant forall u :: 1 <= u < t ==> u in hrpwMemo
      {
        var w := ComputeHrpw(t);
      }
    }

    /** _compute_hrpw: the memoised positional weight. */
    method ComputeHrpw(task: int) returns (v: int)
      requires Valid() && 1 <= task <= n
      modifies this`hrpwMemo
      ensures Valid() && v == Hrpw(graph, durations, rank, task)
      ensures task in hrpwMemo && old(hrpwMemo).Keys <= hrpwMemo.Keys
      decreases rank[task - 1], 1
    {
      if task in hrpwMemo {
        return hrpwMemo[task];
      }
      if graph[task - 1].successors == [] {
        v := durations[task - 1];
      } else {
        var best := HeaviestSuccessor(task);
        v := durations[task - 1] + best;
      }
      hrpwMemo := hrpwMemo[task := v];
    }

    /** max(self._compute_hrpw(succ) for succ in successors) */
    method HeaviestSuccessor(task: int) returns (best: int)
      requires Valid() && 1 <= task <= n && graph[task - 1].successors != []
      modifies this`hrpwMemo
      ensures Valid() && old(hrpwMemo).Keys <= hrpwMemo.Keys
      ensures best == MaxOf(SuccWeights(graph, durations, rank, task))
      decreases rank[task - 1], 0, 1
    {
      ghost var ws := SuccWeights(graph, durations, rank, task);
      SuccWeightAt(graph, durations, rank, task, 0);
      best := ComputeHrpw(graph[task - 1].successors[0]);
      assert ws[..1] == [ws[0]];
      for i := 1 to |graph[task - 1].successors|
        invariant Valid() && old(hrpwMemo).Keys <= hrpwMemo.Keys
        invariant best == MaxOf(ws[..i])
      {
        best := HeavierSuccessor(task, i, best);
      }
      assert ws[..|graph[task - 1].successors|] == ws;
    }

    /** One step of that max: the running maximum against successor i. */
    method HeavierSuccessor(task: int, i: int, best: int) returns (next: int)
      requires Valid() && 1 <= task <= n && 0 < i < |Succ(graph, task)|
      requires best == MaxOf(SuccWeights(graph, durations, rank, task)[..i])
      modifies this`hrpwMemo
      ensures Valid() && old(hrpwMemo).Keys <= hrpwMemo.Keys
      ensures next == MaxOf(SuccWeights(graph, durations, rank, task)[..i + 1])
      decreases rank[task - 1], 0, 0
    {
      SuccWeightAt(graph, durations, rank, task, i);
      var h := ComputeHrpw(graph[task - 1].successors[i]);
      MaxOfSnoc(SuccWeights(graph, durations, rank, task), i);
      next := if h > best then h else best;
    }

    /** _count_total_successors: the number of distinct activities the
        search reaches, the task itself excluded, memoised. */
    method CountTotalSuccessors(task: int) returns (count: int)
      requires Valid() && 1 <= task <= n
      modifies this`successorsMemo
      ensures Valid() && count == |ReachSet(graph, rank, task) - {task}|
      ensures task in successorsMemo && old(successorsMemo).Keys <= successorsMemo.Keys
    {
      if task in successorsMemo {
        return successorsMemo[task];
      }
      var visited := Search(graph, rank, task);
      count := |visited| - 1;
      successorsMemo := successorsMemo[task := count];
    }

    /** _get_resource_demand */
    function ResourceDemand(t: int): (d: int)
      requires 1 <= t
      ensures skillRequirements != [] && mastery != [] && t <= |skillRequirements| ==>
        d == Max1(|DemandedSkills(skillRequirements[t - 1])|)
      ensures skillRequirements == [] || mastery == [] || t > |skillRequirements| ==>
        d == (if t in resourceUsage then resourceUsage[t] else 1)
    {
      if skillRequirements == [] || mastery == [] then
        (if t in resourceUsage then resourceUsage[t] else 1)
      else if t <= |skillRequirements| then
        Max1(CountDemanded(skillRequirements[t - 1]))
      else
        (if t in resourceUsage then resourceUsage[t] else 1)
    }

    /** The mastery rows are long enough to look up every skill an activity
        may demand. */
    predicate SkillDataFits()
    {
      forall a :: 0 <= a < |skillRequirements| ==> RowsFit(mastery, skillRequirements[a])
    }

    /** _get_resource_availability */
    function ResourceAvailability(t: int): (a: int)
      requires 1 <= t && SkillDataFits()
      ensures skillRequirements != [] && mastery != [] && t <= |skillRequirements| ==>
        a == Max1(|Capable(mastery, skillRequirements[t - 1])|)
      ensures skillRequirements == [] || mastery == [] || t > |skillRequirements| ==> a == 1
      ensures 1 <= a <= Max1(|mastery|)
    {
      if mastery == [] || skillRequirements == [] then 1
      else if t > |skillRequirements| then 1
      else
        CapableAtMost(mastery, skillRequirements[t - 1]);
        Max1(CountCapable(mastery, skillRequirements[t - 1]))
    }

    /** The data each rule looks up is there. */
    predicate Supports(rule: Rule)
    {
      (rule == LST ==> |lst| >= n) && (rule == LFT ==> |lft| >= n) &&
      (rule == STFD ==> |floatDyn| >= n) && (rule == TIMROS ==> SkillDataFits())
    }

    /** The keys of the rules that read only the instance data. */
    function PlainKey(rule: Rule, t: int): Key
      requires Shape() && Supports(rule) && 1 <= t <= n && rule != HRPW && rule != MTS
    {
      match rule
      case LST => IntKey(lst[t - 1])
      case LFT => IntKey(lft[t - 1])
      case TIMROS => Quotient(durations[t - 1], ResourceAvailability(t))
      case HRU1 => IntKey(ResourceDemand(t))
      case TIMRES => IntKey(durations[t - 1] * ResourceDemand(t))
      case HRU2 => IntKey(ResourceDemand(t) * durations[t - 1])
      case STFD => ExtKey(floatDyn[t - 1])
      case EFT => IntKey(eft[t - 1])
    }

    /** The sort key of activity t under a rule. */
    ghost function KeyOf(rule: Rule, t: int): Key
      requires Shape() && Supports(rule) && 1 <= t <= n
    {
      match rule
      case HRPW => IntKey(Hrpw(graph, durations, rank, t))
      case MTS => IntKey(|ReachSet(graph, rank, t) - {t}|)
      case _ => PlainKey(rule, t)
    }

    ghost function Keys(rule: Rule): (keys: seq<Key>)
      requires Shape() && Supports(rule)
      ensures |keys| == n
    {
      seq(n, i requires 0 <= i < n => KeyOf(rule, i + 1))
    }

    /** The MTS keys, one breadth-first count per activity in list order. */
    method MtsKeys() returns (keys: seq<Key>)
      requires Valid()
      modifies this`successorsMemo
      ensures Valid() && keys == Keys(MTS)
    {
      keys := [];
      for t := 1 to n + 1
        invariant Valid() && |keys| == t - 1
        invariant forall i :: 0 <= i < t - 1 ==> keys[i] == KeyOf(MTS, i + 1)
      {
        var c := CountTotalSuccessors(t);
        keys := keys + [IntKey(c)];
      }
    }

    /** The HRPW* keys, read from the memo table. */
    function HrpwKeys(): (keys: seq<Key>)
      reads this
      requires Valid() && HrpwFilled()
      ensures keys == Keys(HRPW)
    {
      seq(n, i requires 0 <= i < n && i + 1 in hrpwMemo reads this => IntKey(hrpwMemo[i + 1]))
    }

    /** The ten sort_by_* methods: the activities ordered by the rule's key
        in the rule's direction, ties by increasing identifier. */
    method SortBy(rule: Rule) returns (r: seq<int>)
      requires Valid() && HrpwFilled() && Supports(rule)
      modifies this`successorsMemo
      ensures Valid()
      ensures r == RankBy(Keys(rule), Descending(rule))
      ensures RankedBy(r, Keys(rule), Descending(rule))
    {
      var keys: seq<Key>;
      if rule == MTS {
        keys := MtsKeys();
      } else if rule == HRPW {
        keys := HrpwKeys();
      } else {
        keys := seq(n, i requires 0 <= i < n => PlainKey(rule, i + 1));
        assert keys == Keys(rule);
      }
      r := RankBy(keys, Descending(rule));
      RankBySpec(keys, Descending(rule));
    }

    /** get_ordered_activities: an unknown name is refused (ValueError);
        otherwise the rule's ranking, reordered so that every activity comes
        after its predecessors. */
    method GetOrderedActivities(name: string) returns (r: Result<seq<int>, string>)
      requires Valid() && HrpwFilled()
      requires RuleNamed(name).Some? ==> Supports(RuleNamed(name).value)
      modifies this`successorsMemo
      ensures Valid()
      ensures r.Failure? <==> RuleNamed(name).None?
      ensures r.Success? ==>
        var rule := RuleNamed(name).value;
        var ranking := RankBy(Keys(rule), Descending(rule));
        r.value == Peel(graph, ranking, Elems(ranking)).order &&
        multiset(r.value) == multiset(AllActivities(n)) &&
        AfterPreds(graph, r.value, Elems(AllActivities(n)))
    {
      var rule := RuleNamed(name);
      if rule.None? {
        return Failure("unknown rule: " + name);
      }
      var ordered := SortBy(rule.value);
      RankedByIsPermutation(ordered, Keys(rule.value), Descending(rule.value));
      assert Dag(graph) by {
        assert RankOk(graph, rank);
      }
      PermutationElems(ordered, AllActivities(n));
      var result := RespectPrecedenceConstraints(graph, ordered);
      r := Success(result);
    }

    /** What get_ordered_activities returns for a known rule. */
    ghost function Ordered(rule: Rule): seq<int>
      requires Shape() && Supports(rule)
    {
      var ranking := RankBy(Keys(rule), Descending(rule));
      Peel(graph, ranking, Elems(ranking)).order
    }

    /** get_all_priority_orders: the ordering of each of the ten rules,
        under the rule's name, and nothing else. */
    method AllPriorityOrders() returns (orders: map<string, seq<int>>)
      requires Valid() && HrpwFilled()
      requires forall rule: Rule :: Supports(rule)
      modifies this`successorsMemo
      ensures Valid()
      ensures forall rule: Rule :: RuleName(rule) in orders && orders[RuleName(rule)] == Ordered(rule)
      ensures forall name :: name in orders ==> RuleNamed(name).Some?
    {
      orders := map[];
      for i := 0 to |AllRules()|
        invariant Valid() && HrpwFilled()
        invariant forall k :: 0 <= k < i ==> RuleName(AllRules()[k]) in orders
        invariant forall name :: name in orders ==>
          RuleNamed(name).Some? && orders[name] == Ordered(RuleNamed(name).value)
      {
        var rule := AllRules()[i];
        RuleNamesComplete(rule);
        var r := GetOrderedActivities(RuleName(rule));
        orders := orders[RuleName(rule) := r.value];
      }
      EveryRuleOrdered(orders);
    }

    /** A table holding every rule's name, each name mapped to its rule's
        ordering, holds every rule's ordering. */
    lemma EveryRuleOrdered(orders: map<string, seq<int>>)
      requires Shape() && forall rule: Rule :: Supports(rule)
      requires forall k :: 0 <= k < |AllRules()| ==> RuleName(AllRules()[k]) in orders
      requires forall name :: name in orders ==>
        RuleNamed(name).Some? && orders[name] == Ordered(RuleNamed(name).value)
      ensures forall rule: Rule :: RuleName(rule) in orders && orders[RuleName(rule)] == Ordered(rule)
    {
      forall rule: Rule ensures RuleName(rule) in orders && orders[RuleName(rule)] == Ordered(rule) {
        var k := AllRulesListed(rule);
        RuleNamesComplete(rule);
      }
    }
  }

  lemma {:induction false} CapableAtMost(mastery: seq<seq<int>>, req: seq<int>)
    requires RowsFit(mastery, req)
    ensures |Capable(mastery, req)| <= |mastery|
  {
    if mastery != [] {
      CapableSnoc(mastery, req);
      CapableAtMost(mastery[..|mastery| - 1], req);
    }
  }
}
