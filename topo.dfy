/** The priority-guided topological reordering shared by both ranking
    classes (paste.py _respect_precedence_constraints, lines 242-288;
    algorithmes.py _respect_precedence, lines 116-143): while activities
    remain, take the ready one (no predecessor still remaining) that comes
    first in the input ranking. The peel also decides acyclicity, which is
    how networkx's test is modelled. */
module TopoOrder {
  import opened Wrappers
  import opened IdLists
  import opened PrecedenceGraph

  /** No activity with an edge into t is still remaining (networkx's
      G.predecessors, which follows the successor lists). */
  predicate ReadyIn(g: Graph, remaining: set<int>, t: int)
  {
    forall a | 1 <= a <= |g| :: t in Succ(g, a) ==> a !in remaining
  }

  /** The first position at or after `from` whose activity is remaining and
      ready: min(ready_tasks, key=priority). */
  function FirstReady(g: Graph, ordered: seq<int>, remaining: set<int>, from: nat): (r: Option<nat>)
    requires from <= |ordered|
    ensures r.Some? ==>
      (from <= r.value < |ordered| && ordered[r.value] in remaining &&
       ReadyIn(g, remaining, ordered[r.value]))
    decreases |ordered| - from
  {
    if from == |ordered| then None
    else if ordered[from] in remaining && ReadyIn(g, remaining, ordered[from]) then Some(from)
    else FirstReady(g, ordered, remaining, from + 1)
  }

  /** No position before the one FirstReady finds holds a remaining, ready activity. */
  lemma {:induction false} FirstReadyIsFirst(g: Graph, ordered: seq<int>, remaining: set<int>, from: nat)
    requires from <= |ordered|
    ensures var r := FirstReady(g, ordered, remaining, from);
      forall m :: from <= m < |ordered| && (r.None? || m < r.value) ==>
        !(ordered[m] in remaining && ReadyIn(g, remaining, ordered[m]))
    decreases |ordered| - from
  {
    if from < |ordered| {
      FirstReadyIsFirst(g, ordered, remaining, from + 1);
    }
  }

  /** The outcome of the peel: the activities taken in order, and those left
      when no remaining activity was ready. */
  datatype Peeled = Peeled(order: seq<int>, left: set<int>)

  function Peel(g: Graph, ordered: seq<int>, remaining: set<int>): Peeled
    decreases |remaining|
  {
    if remaining == {} then Peeled([], {})
    else
      match FirstReady(g, ordered, remaining, 0)
      case None => Peeled([], remaining)
      case Some(m) =>
        var rest := Peel(g, ordered, remaining - {ordered[m]});
        Peeled([ordered[m]] + rest.order, rest.left)
  }

  // ---- the loop ----

  /** The peel as the source runs it, shrinking `remaining` and appending to
      `result`; it stops early when nothing is ready. */
  method PeelLoop(g: Graph, ordered: seq<int>) returns (result: seq<int>, remaining: set<int>)
    ensures Peeled(result, remaining) == Peel(g, ordered, Elems(ordered))
  {
    result := [];
    remaining := Elems(ordered);
    while remaining != {}
      invariant Peel(g, ordered, Elems(ordered)) ==
        Peeled(result + Peel(g, ordered, remaining).order, Peel(g, ordered, remaining).left)
      decreases |remaining|
    {
      var next := FirstReady(g, ordered, remaining, 0);
      if next.None? {
        assert Peel(g, ordered, remaining) == Peeled([], remaining) by {
          PeelUnfold(g, ordered, remaining);
        }
        assert result + [] == result;
        return;
      }
      var t := ordered[next.value];
      ghost var rest := Peel(g, ordered, remaining - {t});
      assert Peel(g, ordered, remaining) == Peeled([t] + rest.order, rest.left) by {
        PeelUnfold(g, ordered, remaining);
      }
      assert result + ([t] + rest.order) == (result + [t]) + rest.order;
      result := result + [t];
      remaining := remaining - {t};
    }
  }

  lemma PeelUnfold(g: Graph, ordered: seq<int>, remaining: set<int>)
    requires remaining != {}
    ensures var f := FirstReady(g, ordered, remaining, 0);
      (f.None? ==> Peel(g, ordered, remaining) == Peeled([], remaining)) &&
      (f.Some? ==>
        var rest := Peel(g, ordered, remaining - {ordered[f.value]});
        Peel(g, ordered, remaining) == Peeled([ordered[f.value]] + rest.order, rest.left))
  {
  }

  // ---- what the peel produces ----

  /** Taken and left activities together are exactly the remaining ones,
      and none is both. */
  lemma {:induction false} PeelSets(g: Graph, ordered: seq<int>, remaining: set<int>)
    ensures var p := Peel(g, ordered, remaining);
      forall x :: x in remaining <==> x in p.order || x in p.left
    ensures var p := Peel(g, ordered, remaining);
      forall x :: x in p.left ==> x !in p.order
    decreases |remaining|
  {
    if remaining != {} {
      var f := FirstReady(g, ordered, remaining, 0);
      if f.Some? {
        var t := ordered[f.value];
        PeelSets(g, ordered, remaining - {t});
        var rest := Peel(g, ordered, remaining - {t});
        assert Peel(g, ordered, remaining).order == [t] + rest.order;
        assert forall x :: x in [t] + rest.order <==> x == t || x in rest.order;
      }
    }
  }

  /** Every activity is taken at most once. */
  lemma {:induction false} PeelNoDup(g: Graph, ordered: seq<int>, remaining: set<int>)
    ensures NoDup(Peel(g, ordered, remaining).order)
    ensures forall x :: x in Peel(g, ordered, remaining).order ==> x in remaining
    decreases |remaining|
  {
    if remaining != {} {
      var f := FirstReady(g, ordered, remaining, 0);
      if f.Some? {
        var t := ordered[f.value];
        PeelNoDup(g, ordered, remaining - {t});
        var rest := Peel(g, ordered, remaining - {t});
        var o := [t] + rest.order;
        forall i, j | 0 <= i < j < |o| ensures o[i] != o[j] {
          if i == 0 {
            assert o[j] == rest.order[j - 1];
            assert o[j] in rest.order;
          } else {
            assert o[i] == rest.order[i - 1] && o[j] == rest.order[j - 1];
          }
        }
        forall x | x in o ensures x in remaining {
          if x != t {
            assert x in rest.order;
          }
        }
      }
    }
  }

  /** Every activity is taken at most once, and taken and left activities
      together are exactly the remaining ones. */
  lemma PeelPartition(g: Graph, ordered: seq<int>, remaining: set<int>)
    ensures var p := Peel(g, ordered, remaining);
      NoDup(p.order) && Elems(p.order) + p.left == remaining && Elems(p.order) !! p.left
  {
    PeelSets(g, ordered, remaining);
    PeelNoDup(g, ordered, remaining);
    var p := Peel(g, ordered, remaining);
    assert forall x :: x in Elems(p.order) <==> x in p.order;
  }

  /** Peeling stops early only on a set where every activity still has a
      remaining predecessor. */
  lemma {:induction false} PeelStuck(g: Graph, ordered: seq<int>, remaining: set<int>)
    requires remaining <= Elems(ordered)
    ensures var p := Peel(g, ordered, remaining);
      p.left <= remaining && forall t :: t in p.left ==> !ReadyIn(g, p.left, t)
    decreases |remaining|
  {
    if remaining != {} {
      var f := FirstReady(g, ordered, remaining, 0);
      if f.None? {
        FirstReadyIsFirst(g, ordered, remaining, 0);
        forall t | t in remaining ensures !ReadyIn(g, remaining, t) {
          assert t in Elems(ordered);
          var m :| 0 <= m < |ordered| && ordered[m] == t;
        }
      } else {
        PeelStuck(g, ordered, remaining - {ordered[f.value]});
      }
    }
  }

  /** Every activity of `order` comes after each of its predecessors that
      is in `remaining`. */
  ghost predicate AfterPreds(g: Graph, order: seq<int>, remaining: set<int>)
  {
    forall j, a {:trigger order[j], Succ(g, a)} ::
      0 <= j < |order| && 1 <= a <= |g| && order[j] in Succ(g, a) && a in remaining ==> a in order[..j]
  }

  /** Every taken activity comes after each of its predecessors that was
      among the remaining ones. */
  lemma {:induction false} PeelTopological(g: Graph, ordered: seq<int>, remaining: set<int>)
    ensures AfterPreds(g, Peel(g, ordered, remaining).order, remaining)
    decreases |remaining|
  {
    var p := Peel(g, ordered, remaining);
    if remaining != {} {
      var f := FirstReady(g, ordered, remaining, 0);
      if f.Some? {
        var t := ordered[f.value];
        var rem := remaining - {t};
        PeelTopological(g, ordered, rem);
        var rest := Peel(g, ordered, rem);
        assert p.order == [t] + rest.order;
        forall j, a | 0 <= j < |p.order| && 1 <= a <= |g| && p.order[j] in Succ(g, a) && a in remaining
          ensures a in p.order[..j]
        {
          if j == 0 {
            assert false;
          } else if a != t {
            assert p.order[j] == rest.order[j - 1];
            assert rest.order[j - 1] in Succ(g, a) && a in rem;
            assert a in rest.order[..j - 1];
            assert p.order[..j] == [t] + rest.order[..j - 1];
          } else {
            assert p.order[..j][0] == t;
          }
        }
      }
    }
  }

  lemma ElemsConsPrefix(t: int, xs: seq<int>, j: nat)
    requires 1 <= j <= |xs| + 1
    ensures Elems(([t] + xs)[..j]) == {t} + Elems(xs[..j - 1])
  {
    assert ([t] + xs)[..j] == [t] + xs[..j - 1];
  }

  /** t is listed in the ranking before every other remaining ready activity. */
  ghost predicate TakesFirst(g: Graph, ordered: seq<int>, rem: set<int>, t: int)
  {
    t in ordered &&
    forall m :: 0 <= m < IndexOf(ordered, t) ==> !(ordered[m] in rem && ReadyIn(g, rem, ordered[m]))
  }

  /** Each step takes, among the activities still remaining and ready, the
      one listed first in the input ranking: step j, from what steps 0..j-1
      left. */
  lemma {:induction false} PeelTakesFirst(g: Graph, ordered: seq<int>, remaining: set<int>, j: nat)
    requires j < |Peel(g, ordered, remaining).order|
    ensures var p := Peel(g, ordered, remaining);
      TakesFirst(g, ordered, remaining - Elems(p.order[..j]), p.order[j])
    decreases |remaining|
  {
    var p := Peel(g, ordered, remaining);
    var f := FirstReady(g, ordered, remaining, 0);
    assert remaining != {} && f.Some?;
    var t := ordered[f.value];
    var rest := Peel(g, ordered, remaining - {t});
    assert p.order == [t] + rest.order;
    if j == 0 {
      assert remaining - Elems(p.order[..0]) == remaining by {
        assert p.order[..0] == [];
        assert Elems(p.order[..0]) == {};
      }
      assert p.order[0] == t;
      FirstReadyIsFirst(g, ordered, remaining, 0);
      assert IndexOf(ordered, t) <= f.value;
    } else {
      PeelTakesFirst(g, ordered, remaining - {t}, j - 1);
      assert remaining - Elems(p.order[..j]) == (remaining - {t}) - Elems(rest.order[..j - 1]) by {
        ElemsConsPrefix(t, rest.order, j);
      }
      assert p.order[j] == rest.order[j - 1];
    }
  }

  // ---- on a ranked graph the peel never stops early ----

  lemma {:induction false} HighestRank(g: Graph, rank: seq<int>, s: set<int>) returns (t: int)
    requires RankOk(g, rank) && s != {}
    requires forall x :: x in s ==> 1 <= x <= |g|
    ensures t in s
    ensures forall x :: x in s ==> rank[x - 1] <= rank[t - 1]
    decreases |s|
  {
    var x := Pick(s);
    if s == {x} {
      t := x;
    } else {
      var u := HighestRank(g, rank, s - {x});
      t := if rank[x - 1] <= rank[u - 1] then u else x;
      assert forall y :: y in s ==> y == x || y in s - {x};
    }
  }

  /** Every non-empty set of activities of a ranked graph holds a ready one. */
  lemma SomeReady(g: Graph, rank: seq<int>, s: set<int>) returns (t: int)
    requires RankOk(g, rank) && s != {}
    requires forall x :: x in s ==> 1 <= x <= |g|
    ensures t in s && ReadyIn(g, s, t)
  {
    t := HighestRank(g, rank, s);
    forall a | 1 <= a <= |g| && t in Succ(g, a) ensures a !in s {
      var k :| 0 <= k < |Succ(g, a)| && Succ(g, a)[k] == t;
      assert g[a - 1].successors[k] == t;
    }
  }

  lemma {:induction false} DagPeelsAll(g: Graph, ordered: seq<int>, remaining: set<int>)
    requires Dag(g) && remaining <= Elems(ordered)
    requires forall x :: x in remaining ==> 1 <= x <= |g|
    ensures Peel(g, ordered, remaining).left == {}
    decreases |remaining|
  {
    if remaining != {} {
      var rank :| RankOk(g, rank);
      var t := SomeReady(g, rank, remaining);
      var f := FirstReady(g, ordered, remaining, 0);
      if f.None? {
        FirstReadyIsFirst(g, ordered, remaining, 0);
        assert false;
      }
      DagPeelsAll(g, ordered, remaining - {ordered[f.value]});
    }
  }

  // ---- deciding acyclicity ----

  function IndexOf(s: seq<int>, x: int): (i: nat)
    requires x in s
    ensures i < |s| && s[i] == x && x !in s[..i]
  {
    if s[0] == x then 0 else 1 + IndexOf(s[1..], x)
  }

  lemma IndexOfNoDup(s: seq<int>, k: nat)
    requires NoDup(s) && k < |s|
    ensures IndexOf(s, s[k]) == k
  {
  }

  /** A duplicate-free listing of the same set as 1..n is 1..n in some order. */
  lemma ListsAll(n: nat, order: seq<int>)
    requires NoDup(order) && Elems(order) == Elems(AllActivities(n))
    ensures |order| == n
    ensures forall t :: 1 <= t <= n ==> t in order
    ensures forall j :: 0 <= j < |order| ==> 1 <= order[j] <= n
  {
    var all := AllActivities(n);
    forall t | 1 <= t <= n ensures t in order {
      assert all[t - 1] == t;
      assert t in Elems(all);
    }
    forall j | 0 <= j < |order| ensures 1 <= order[j] <= n {
      assert order[j] in Elems(all);
    }
    assert NoDup(all);
    NoDupSetSize(order);
    NoDupSetSize(all);
  }

  /** A complete, topologically ordered peel gives a rank: later is lower. */
  lemma PeeledRank(g: Graph, order: seq<int>)
    requires WellFormed(g) && NoDup(order) && |order| == |g|
    requires forall t :: 1 <= t <= |g| ==> t in order
    requires AfterPreds(g, order, Elems(AllActivities(|g|)))
    ensures Dag(g)
  {
    var all := AllActivities(|g|);
    var rank := seq(|g|, i requires 0 <= i < |g| => |g| - 1 - IndexOf(order, i + 1));
    forall i, k | 0 <= i < |g| && 0 <= k < |g[i].successors|
      ensures rank[g[i].successors[k] - 1] < rank[i]
    {
      var b := g[i].successors[k];
      var j := IndexOf(order, b);
      assert b in Succ(g, i + 1);
      assert i + 1 in Elems(all) by {
        assert all[i] == i + 1;
      }
      assert i + 1 in order[..j];
      var ja :| 0 <= ja < j && order[ja] == i + 1;
      IndexOfNoDup(order, ja);
    }
    assert RankOk(g, rank);
  }

  /** Kahn's test over activities 1..n: acyclic exactly when the peel takes
      every activity. */
  method IsAcyclic(g: Graph) returns (acyclic: bool)
    requires WellFormed(g)
    ensures acyclic <==> Dag(g)
  {
    var all := AllActivities(|g|);
    var order, left := PeelLoop(g, all);
    acyclic := left == {};
    PeelPartition(g, all, Elems(all));
    if acyclic {
      PeelTopological(g, all, Elems(all));
      ListsAll(|g|, order);
      PeeledRank(g, order);
    } else {
      assert forall x :: x in Elems(all) ==> 1 <= x <= |g|;
      if Dag(g) {
        DagPeelsAll(g, all, Elems(all));
      }
    }
  }

  // ---- rankings and sorted sets ----

  /** Activities of the ranking, each an activity of the graph, each once:
      what every sort_by_* rule produces. */
  ghost predicate Ranking(g: Graph, ordered: seq<int>)
  {
    NoDup(ordered) && forall k :: 0 <= k < |ordered| ==> IsActivity(g, ordered[k])
  }

  lemma {:induction false} Least(s: set<int>) returns (m: int)
    requires s != {}
    ensures m in s
    ensures forall y :: y in s ==> m <= y
    decreases |s|
  {
    var x := Pick(s);
    if s == {x} {
      m := x;
    } else {
      var u := Least(s - {x});
      m := if x <= u then x else u;
      assert forall y :: y in s ==> y == x || y in s - {x};
    }
  }

  /** sorted(remaining): the members of a finite set in increasing order. */
  method SortedElems(s: set<int>) returns (r: seq<int>)
    ensures Elems(r) == s && Increasing(r)
  {
    r := [];
    var rest := s;
    while rest != {}
      invariant forall y :: y in s <==> y in r || y in rest
      invariant forall y :: y in r ==> y !in rest
      invariant Increasing(r)
      invariant r != [] ==> forall y :: y in rest ==> r[|r| - 1] < y
      decreases |rest|
    {
      ghost var least := Least(rest);
      var x :| x in rest && forall y :: y in rest ==> x <= y;
      assert Increasing(r + [x]) by {
        if r != [] {
          assert forall k :: 0 <= k < |r| ==> r[k] <= r[|r| - 1];
        }
      }
      r := r + [x];
      rest := rest - {x};
    }
    assert rest == {};
    assert forall y :: y in Elems(r) <==> y in s;
  }

  // ---- the two variants ----

  /** paste.py _respect_precedence_constraints: the input ranking unchanged
      on a cyclic graph, otherwise the priority-guided peel, with the
      leftovers sorted by identifier if it ever stops early. */
  method RespectPrecedenceConstraints(g: Graph, ordered: seq<int>) returns (r: seq<int>)
    requires WellFormed(g) && Ranking(g, ordered)
    ensures !Dag(g) ==> r == ordered
    ensures Dag(g) ==> r == Peel(g, ordered, Elems(ordered)).order
    ensures Dag(g) ==> multiset(r) == multiset(ordered) && AfterPreds(g, r, Elems(ordered))
  {
    var acyclic := IsAcyclic(g);
    if !acyclic {
      return ordered;
    }
    var result, remaining := PeelLoop(g, ordered);
    if remaining != {} {
      var rest := SortedElems(remaining);
      result := result + rest;
    }
    r := result;
    DagPeelsAll(g, ordered, Elems(ordered));
    PeelPartition(g, ordered, Elems(ordered));
    PeelTopological(g, ordered, Elems(ordered));
    SameElemsPermutation(r, ordered);
  }

  /** list(remaining): the members of a set in some order, each once. */
  method ListOfSet(s: set<int>) returns (xs: seq<int>)
    ensures Elems(xs) == s && NoDup(xs)
  {
    xs := [];
    var rest := s;
    while rest != {}
      invariant forall y :: y in s <==> y in xs || y in rest
      invariant forall y :: y in xs ==> y !in rest
      invariant NoDup(xs)
      decreases |rest|
    {
      ghost var some := Pick(rest);
      var x :| x in rest;
      NoDupAppend(xs, [x]);
      xs := xs + [x];
      rest := rest - {x};
    }
    assert forall y :: y in Elems(xs) <==> y in s;
  }

  /** algorithmes.py _respect_precedence: the priority-guided peel, then the
      activities it could not place, in unspecified order. No cycle test is
      made first. */
  method RespectPrecedence(g: Graph, ordered: seq<int>) returns (r: seq<int>)
    requires WellFormed(g) && Ranking(g, ordered)
    ensures var p := Peel(g, ordered, Elems(ordered));
      |p.order| <= |r| && r[..|p.order|] == p.order && Elems(r[|p.order|..]) == p.left
    ensures NoDup(r) && multiset(r) == multiset(ordered)
    ensures Dag(g) ==> r == Peel(g, ordered, Elems(ordered)).order
  {
    var result, remaining := PeelLoop(g, ordered);
    var rest := ListOfSet(remaining);
    r := result + rest;
    PeelPartition(g, ordered, Elems(ordered));
    assert r[..|result|] == result && r[|result|..] == rest;
    assert forall y :: y in rest ==> y in Elems(rest) && y !in Elems(result);
    NoDupAppend(result, rest);
    assert Elems(r) == Elems(result) + Elems(rest);
    SameElemsPermutation(r, ordered);
    if Dag(g) {
      DagPeelsAll(g, ordered, Elems(ordered));
      NoDupSetSize(rest);
      assert rest == [];
    }
  }

  // ---- idempotence ----

  lemma {:induction false} FirstReadyAt(g: Graph, ordered: seq<int>, remaining: set<int>, from: nat, k: nat)
    requires from <= k < |ordered|
    requires forall m :: from <= m < k ==> ordered[m] !in remaining
    requires ordered[k] in remaining && ReadyIn(g, remaining, ordered[k])
    ensures FirstReady(g, ordered, remaining, from) == Some(k)
    decreases k - from
  {
    if from < k {
      FirstReadyAt(g, ordered, remaining, from + 1, k);
    }
  }

  /** A ranking that is already a topological order peels from any position
      onwards into exactly its own suffix. */
  lemma {:induction false} PeelSuffix(g: Graph, ordered: seq<int>, k: nat)
    requires Ranking(g, ordered) && AfterPreds(g, ordered, Elems(ordered)) && k <= |ordered|
    ensures Peel(g, ordered, Elems(ordered[k..])) == Peeled(ordered[k..], {})
    decreases |ordered| - k
  {
    var rem := Elems(ordered[k..]);
    if k < |ordered| {
      var t := ordered[k];
      assert t in rem;
      assert forall m :: 0 <= m < k ==> ordered[m] !in rem;
      assert ReadyIn(g, rem, t);
      FirstReadyAt(g, ordered, rem, 0, k);
      assert rem - {t} == Elems(ordered[k + 1..]) by {
        assert ordered[k..] == [t] + ordered[k + 1..];
        assert t !in ordered[k + 1..];
      }
      PeelSuffix(g, ordered, k + 1);
      assert ordered[k..] == [t] + ordered[k + 1..];
    } else {
      assert rem == {};
    }
  }

  /** A ranking that already respects precedence comes back unchanged. */
  lemma PeelKeepsTopological(g: Graph, ordered: seq<int>)
    requires Ranking(g, ordered) && AfterPreds(g, ordered, Elems(ordered))
    ensures Peel(g, ordered, Elems(ordered)) == Peeled(ordered, {})
  {
    PeelSuffix(g, ordered, 0);
    assert ordered[0..] == ordered;
  }

  /** Reordering twice gives what reordering once gives. */
  lemma PeelIdempotent(g: Graph, ordered: seq<int>)
    requires WellFormed(g) && Dag(g) && Ranking(g, ordered)
    ensures var p := Peel(g, ordered, Elems(ordered)).order;
      Peel(g, p, Elems(p)) == Peeled(p, {})
  {
    var p := Peel(g, ordered, Elems(ordered)).order;
    PeelPartition(g, ordered, Elems(ordered));
    DagPeelsAll(g, ordered, Elems(ordered));
    PeelTopological(g, ordered, Elems(ordered));
    assert Elems(p) == Elems(ordered);
    forall k | 0 <= k < |p| ensures IsActivity(g, p[k]) {
      assert p[k] in Elems(ordered);
    }
    PeelKeepsTopological(g, p);
  }
}
