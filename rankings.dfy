/** `sorted(self.activities, key=..., reverse=...)`, the shape of every
    priority rule of both ranking classes: the activities 1..n ordered by a
    per-activity key, ascending or descending, ties kept in increasing
    identifier order because Python's sort is stable even when reversed. */
module Rankings {
  import opened StableSort
  import opened IdLists
  import opened Wrappers

  /** Activity t paired with its key keys[t - 1], in list order 1..n. */
  function Tag(keys: seq<Key>): (r: seq<Keyed>)
    ensures |r| == |keys|
    ensures forall i :: 0 <= i < |keys| ==> r[i] == Keyed(keys[i], i + 1)
  {
    seq(|keys|, i requires 0 <= i < |keys| => Keyed(keys[i], i + 1))
  }

  function RankBy(keys: seq<Key>, desc: bool): seq<int>
  {
    Ids(Sort(Tag(keys), desc))
  }

  /** Key of activity t may come before key of activity u. */
  predicate KeyBefore(keys: seq<Key>, t: int, u: int, desc: bool)
    requires 1 <= t <= |keys| && 1 <= u <= |keys|
  {
    if desc then KeyLe(keys[u - 1], keys[t - 1]) else KeyLe(keys[t - 1], keys[u - 1])
  }

  /** r lists every activity 1..n once, in key order, ties by identifier. */
  ghost predicate RankedBy(r: seq<int>, keys: seq<Key>, desc: bool)
  {
    multiset(r) == multiset(AllActivities(|keys|)) &&
    (forall i :: 0 <= i < |r| ==> 1 <= r[i] <= |keys|) &&
    forall i, j :: 0 <= i < j < |r| ==>
      KeyBefore(keys, r[i], r[j], desc) && (KeyBefore(keys, r[j], r[i], desc) ==> r[i] < r[j])
  }

  /** Sorting keeps each activity with its own key. */
  lemma SortKeepsTag(keys: seq<Key>, desc: bool, i: int)
    requires 0 <= i < |Sort(Tag(keys), desc)|
    ensures var e := Sort(Tag(keys), desc)[i]; 1 <= e.id <= |keys| && e.key == keys[e.id - 1]
  {
    var xs := Tag(keys);
    SortContents(xs, desc);
    assert Sort(xs, desc)[i] in multiset(xs);
    var k :| 0 <= k < |xs| && xs[k] == Sort(xs, desc)[i];
  }

  lemma RankByContents(keys: seq<Key>, desc: bool)
    ensures multiset(RankBy(keys, desc)) == multiset(AllActivities(|keys|))
  {
    var xs := Tag(keys);
    SortIds(xs, desc);
    IdsAt(xs);
    assert Ids(xs) == AllActivities(|keys|);
  }

  /** What the stable sort of the tagged activities returns. */
  lemma RankBySpec(keys: seq<Key>, desc: bool)
    ensures RankedBy(RankBy(keys, desc), keys, desc)
  {
    var xs := Tag(keys);
    var s := Sort(xs, desc);
    var r := RankBy(keys, desc);
    assert IncreasingIds(xs);
    SortRanked(xs, desc);
    RankByContents(keys, desc);
    IdsAt(s);
    assert r == Ids(s);
    forall i | 0 <= i < |r| ensures r[i] == s[i].id && 1 <= r[i] <= |keys| {
      SortKeepsTag(keys, desc, i);
    }
    forall i, j | 0 <= i < j < |r|
      ensures KeyBefore(keys, r[i], r[j], desc) && (KeyBefore(keys, r[j], r[i], desc) ==> r[i] < r[j])
    {
      SortKeepsTag(keys, desc, i);
      SortKeepsTag(keys, desc, j);
      assert r[i] == s[i].id && r[j] == s[j].id;
      assert Before(s[i], s[j], desc) && (Before(s[j], s[i], desc) ==> s[i].id < s[j].id);
    }
  }

  /** A multiset copy of a duplicate-free list is duplicate-free. */
  lemma NoDupCount(ys: seq<int>, x: int)
    requires NoDup(ys)
    ensures multiset(ys)[x] <= 1
  {
    if ys != [] {
      assert ys == [ys[0]] + ys[1..];
      assert NoDup(ys[1..]);
      NoDupCount(ys[1..], x);
      if x == ys[0] {
        assert x !in ys[1..];
      }
    }
  }

  lemma PermutationNoDup(xs: seq<int>, ys: seq<int>)
    requires multiset(xs) == multiset(ys) && NoDup(ys)
    ensures NoDup(xs)
  {
    forall k, m | 0 <= k < m < |xs| ensures xs[k] != xs[m] {
      if xs[k] == xs[m] {
        assert xs == xs[..m] + xs[m..];
        assert xs[k] in multiset(xs[..m]);
        assert xs[m] in multiset(xs[m..]);
        assert multiset(xs)[xs[k]] == multiset(xs[..m])[xs[k]] + multiset(xs[m..])[xs[k]];
        NoDupCount(ys, xs[k]);
        assert false;
      }
    }
  }

  /** Every ranking lists each activity exactly once. */
  lemma RankedByIsPermutation(r: seq<int>, keys: seq<Key>, desc: bool)
    requires RankedBy(r, keys, desc)
    ensures NoDup(r) && |r| == |keys|
    ensures forall t :: 1 <= t <= |keys| ==> t in r
  {
    var all := AllActivities(|keys|);
    assert NoDup(all);
    PermutationNoDup(r, all);
    assert |r| == |multiset(r)| == |all|;
    forall t | 1 <= t <= |keys| ensures t in r {
      assert all[t - 1] == t;
      assert t in multiset(all);
    }
  }

  // ---- rule names ----

  /** The ten priority rules. */
  datatype Rule = HRPW | LST | LFT | MTS | TIMROS | HRU1 | TIMRES | HRU2 | STFD | EFT

  function RuleName(rule: Rule): string
  {
    match rule
    case HRPW => "HRPW*"
    case LST => "LST"
    case LFT => "LFT"
    case MTS => "MTS"
    case TIMROS => "TIMROS"
    case HRU1 => "HRU1"
    case TIMRES => "TIMRES"
    case HRU2 => "HRU2"
    case STFD => "STFD"
    case EFT => "EFT"
  }

  /** The rule-name table of get_ordered_activities; None for a name it
      does not hold (the ValueError case). */
  function RuleNamed(name: string): (r: Option<Rule>)
    ensures r.Some? ==> RuleName(r.value) == name
  {
    if name == "HRPW*" then Some(HRPW)
    else if name == "LST" then Some(LST)
    else if name == "LFT" then Some(LFT)
    else if name == "MTS" then Some(MTS)
    else if name == "TIMROS" then Some(TIMROS)
    else if name == "HRU1" then Some(HRU1)
    else if name == "TIMRES" then Some(TIMRES)
    else if name == "HRU2" then Some(HRU2)
    else if name == "STFD" then Some(STFD)
    else if name == "EFT" then Some(EFT)
    else None
  }

  /** The rules in the order get_all_priority_orders tries them. */
  function AllRules(): seq<Rule>
  {
    [HRPW, LST, LFT, MTS, TIMROS, HRU1, TIMRES, HRU2, STFD, EFT]
  }

  lemma AllRulesListed(rule: Rule) returns (k: int)
    ensures 0 <= k < |AllRules()| && AllRules()[k] == rule
  {
    k := match rule
      case HRPW => 0 case LST => 1 case LFT => 2 case MTS => 3 case TIMROS => 4
      case HRU1 => 5 case TIMRES => 6 case HRU2 => 7 case STFD => 8 case EFT => 9;
  }

  /** Every rule is found under its own name, so the table is exactly the
      ten names. */
  lemma RuleNamesComplete(rule: Rule)
    ensures RuleNamed(RuleName(rule)) == Some(rule)
  {
  }
}
