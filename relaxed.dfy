/** The resource matcher of the relaxing scheduler
    (improved_scheduler.py find_available_resources). It first keeps the
    resources free over [start, start + duration); then, skill by skill, the
    free resources not yet taken that hold the skill and pass the level test
    of the relaxation level; at level 3 and above a short skill is topped up
    with "versatile" resources (holding at least two of the demanded skills),
    which need not hold the skill and are not checked against the resources
    already picked for it. A shortfall fails the whole match. */
module RelaxedMatcher {
  import opened Wrappers
  import opened Project
  import opened Intervals
  import opened IdLists
  import opened StrictMatcher

  /** skills[idx] > 0 (the single-pass matcher tests != 0 instead). */
  predicate Holds(r: Resource, idx: nat)
  {
    idx < |r.skills| && r.skills[idx] > 0
  }

  function Max(a: int, b: int): int
  {
    if a >= b then a else b
  }

  /** The level test of relaxation level `level`, applied only when both
      level lists cover the skill: 0 strict, 1 one level below (but at least
      1), 2 and above any level; any other level leaves the test passed. */
  predicate LevelOk(level: int, a: Activity, idx: nat, r: Resource)
  {
    if idx < |a.skillLevelRequirements| && idx < |r.skillLevels| then
      var required := a.skillLevelRequirements[idx];
      var have := r.skillLevels[idx];
      if level == 0 then have >= required
      else if level == 1 then have >= Max(1, required - 1)
      else true
    else true
  }

  /** How many of skills 0 .. n-1 the activity demands and `r` holds. */
  function Covered(a: Activity, r: Resource, n: nat): nat
    requires n <= |a.skillRequirements|
  {
    if n == 0 then 0
    else Covered(a, r, n - 1) + (if a.skillRequirements[n - 1] > 0 && Holds(r, n - 1) then 1 else 0)
  }

  /** A resource that covers at least two of the activity's demanded skills. */
  predicate Versatile(a: Activity, r: Resource)
  {
    Covered(a, r, |a.skillRequirements|) >= 2
  }

  function ResIds(rs: seq<Resource>): (r: seq<int>)
    ensures |r| == |rs| && forall k :: 0 <= k < |rs| ==> r[k] == rs[k].id
  {
    seq(|rs|, k requires 0 <= k < |rs| => rs[k].id)
  }

  /** The resources, in list order, with no recorded interval meeting [s, e). */
  function Available(res: seq<Resource>, s: int, e: int, cal: Calendar): seq<Resource>
  {
    if res == [] then []
    else
      var r := res[|res| - 1];
      Available(res[..|res| - 1], s, e, cal) + (if TimeFree(cal, r.id, s, e) then [r] else [])
  }

  /** The free resources not yet taken that hold skill idx and pass the level test. */
  function Suitable(avail: seq<Resource>, a: Activity, idx: nat, level: int, taken: seq<int>): seq<Resource>
  {
    if avail == [] then []
    else
      var r := avail[|avail| - 1];
      Suitable(avail[..|avail| - 1], a, idx, level, taken) +
        (if r.id !in taken && Holds(r, idx) && LevelOk(level, a, idx, r) then [r] else [])
  }

  /** The free resources not yet taken that are versatile. */
  function Fillers(avail: seq<Resource>, a: Activity, taken: seq<int>): seq<Resource>
  {
    if avail == [] then []
    else
      var r := avail[|avail| - 1];
      Fillers(avail[..|avail| - 1], a, taken) + (if r.id !in taken && Versatile(a, r) then [r] else [])
  }

  /** The first k elements, none for k <= 0, all when k exceeds the length. */
  function Take(xs: seq<Resource>, k: int): (r: seq<Resource>)
    ensures |r| <= |xs| && r == xs[..|r|]
    ensures 0 <= k <= |xs| ==> |r| == k
    ensures k <= 0 ==> r == []
  {
    if k <= 0 then [] else if k >= |xs| then xs else xs[..k]
  }

  /** The candidate list for skill idx: the suitable resources, topped up at
      level 3 and above with as many fillers as it lacks (while there are any). */
  function Pool(avail: seq<Resource>, a: Activity, idx: nat, level: int, taken: seq<int>): seq<Resource>
    requires idx < |a.skillRequirements|
  {
    var req := a.skillRequirements[idx];
    var s := Suitable(avail, a, idx, level, taken);
    if level >= 3 && |s| < req then s + Take(Fillers(avail, a, taken), req - |s|) else s
  }

  /** The resources taken to skills |done| .. in turn, as blocks; None at
      the first skill whose pool is shorter than its demand. */
  function RelaxedBlocks(avail: seq<Resource>, a: Activity, level: int, done: seq<seq<Resource>>)
    : Option<seq<seq<Resource>>>
    decreases |a.skillRequirements| - |done|
  {
    if |done| >= |a.skillRequirements| then Some(done)
    else
      var req := a.skillRequirements[|done|];
      if req == 0 then RelaxedBlocks(avail, a, level, done + [[]])
      else
        var pool := Pool(avail, a, |done|, level, ResIds(Flatten(done)));
        if |pool| < req then None else RelaxedBlocks(avail, a, level, done + [Take(pool, req)])
  }

  /** What find_available_resources returns: Some(ids) for (True, ids), None for (False, []). */
  function RelaxedMatch(res: seq<Resource>, a: Activity, start: int, cal: Calendar, level: int)
    : (r: Option<seq<int>>)
    ensures Dummy(a) ==> r == Some([])
  {
    if Dummy(a) then Some([])
    else match RelaxedBlocks(Available(res, start, start + a.duration, cal), a, level, [])
      case None => None
      case Some(bs) => Some(ResIds(Flatten(bs)))
  }

  method FindAvailableResources(res: seq<Resource>, a: Activity, start: int, cal: Calendar, level: int)
    returns (ok: bool, ids: seq<int>)
    ensures ok <==> RelaxedMatch(res, a, start, cal, level).Some?
    ensures ids == if ok then RelaxedMatch(res, a, start, cal, level).value else []
  {
    var endTime := start + a.duration;
    if a.duration == 0 || Sum(a.skillRequirements) == 0 {
      return true, [];
    }
    var available := FreeResources(res, start, endTime, cal);
    assert !Dummy(a);
    ghost var outcome := RelaxedBlocks(available, a, level, []);
    assert RelaxedMatch(res, a, start, cal, level) == if outcome.None? then None else Some(ResIds(Flatten(outcome.value)));
    // one block per skill
    var reqs := a.skillRequirements;
    var taken: seq<int> := [];
    ghost var done: seq<seq<Resource>> := [];
    for idx := 0 to |reqs|
      invariant |done| == idx && taken == ResIds(Flatten(done))
      invariant RelaxedBlocks(available, a, level, []) == RelaxedBlocks(available, a, level, done)
    {
      var required := reqs[idx];
      if required == 0 {
        FlattenSnoc<Resource>(done, []);
        assert RelaxedBlocks(available, a, level, done) == RelaxedBlocks(available, a, level, done + [[]]);
        done := done + [[]];
        continue;
      }
      var suitable := PoolFor(available, a, idx, level, taken);
      if |suitable| < required {
        assert RelaxedBlocks(available, a, level, done) == None;
        return false, [];
      }
      var block := Take(suitable, required);
      taken := AppendIds(taken, suitable, required);
      BlocksStep(available, a, level, done, block);
      FlattenSnoc(done, block);
      ResIdsSnoc(Flatten(done), block);
      done := done + [block];
    }
    assert RelaxedBlocks(available, a, level, done) == Some(done);
    return true, taken;
  }

  /** Appends the ids of the first `required` resources of `suitable`, one by one. */
  method AppendIds(taken: seq<int>, suitable: seq<Resource>, required: int) returns (taken': seq<int>)
    ensures taken' == taken + ResIds(Take(suitable, required))
  {
    taken' := taken;
    var count := if required < |suitable| then required else |suitable|;
    for i := 0 to (if count < 0 then 0 else count)
      invariant taken' == taken + ResIds(suitable[..i])
    {
      assert suitable[..i + 1] == suitable[..i] + [suitable[i]];
      taken' := taken' + [suitable[i].id];
    }
  }

  lemma BlocksStep(avail: seq<Resource>, a: Activity, level: int, done: seq<seq<Resource>>, block: seq<Resource>)
    requires |done| < |a.skillRequirements| && a.skillRequirements[|done|] != 0
    requires |Pool(avail, a, |done|, level, ResIds(Flatten(done)))| >= a.skillRequirements[|done|]
    requires block == Take(Pool(avail, a, |done|, level, ResIds(Flatten(done))), a.skillRequirements[|done|])
    ensures RelaxedBlocks(avail, a, level, done) == RelaxedBlocks(avail, a, level, done + [block])
  {
  }

  /** The resources free over [start, endTime), collected as the source's first loop does. */
  method FreeResources(res: seq<Resource>, start: int, endTime: int, cal: Calendar)
    returns (available: seq<Resource>)
    ensures available == Available(res, start, endTime, cal)
  {
    available := [];
    for k := 0 to |res|
      invariant available == Available(res[..k], start, endTime, cal)
    {
      assert res[..k + 1][..k] == res[..k];
      var free := IsTimeFree(cal, res[k].id, start, endTime);
      if free {
        available := available + [res[k]];
      }
    }
    assert res[..|res|] == res;
  }

  /** The candidate list for one skill: suitable resources, topped up at level 3 and above. */
  method PoolFor(available: seq<Resource>, a: Activity, idx: nat, level: int, taken: seq<int>)
    returns (pool: seq<Resource>)
    requires idx < |a.skillRequirements|
    ensures pool == Pool(available, a, idx, level, taken)
  {
    pool := SuitableFor(available, a, idx, level, taken);
    if level >= 3 && |pool| < a.skillRequirements[idx] {
      pool := TopUp(available, a, taken, pool, a.skillRequirements[idx]);
    }
  }

  /** The suitable list for one skill, built as the source's inner loop does. */
  method SuitableFor(available: seq<Resource>, a: Activity, idx: nat, level: int, taken: seq<int>)
    returns (suitable: seq<Resource>)
    ensures suitable == Suitable(available, a, idx, level, taken)
  {
    suitable := [];
    for k := 0 to |available|
      invariant suitable == Suitable(available[..k], a, idx, level, taken)
    {
      assert available[..k + 1][..k] == available[..k];
      var r := available[k];
      if r.id in taken {
        continue;
      }
      var hasSkill := idx < |r.skills| && r.skills[idx] > 0;
      if !hasSkill {
        continue;
      }
      var levelOk := true;
      if |a.skillLevelRequirements| > idx && idx < |r.skillLevels| {
        var requiredLevel := a.skillLevelRequirements[idx];
        var resourceLevel := r.skillLevels[idx];
        if level == 0 {
          levelOk := resourceLevel >= requiredLevel;
        } else if level == 1 {
          levelOk := resourceLevel >= Max(1, requiredLevel - 1);
        } else if level >= 2 {
          levelOk := true;
        }
      }
      if levelOk {
        suitable := suitable + [r];
      }
    }
    assert available[..|available|] == available;
  }

  /** The number of demanded skills `r` holds, counted as the source does. */
  method CountCovered(a: Activity, r: Resource) returns (count: nat)
    ensures count == Covered(a, r, |a.skillRequirements|)
  {
    count := 0;
    for i := 0 to |a.skillRequirements|
      invariant count == Covered(a, r, i)
    {
      if a.skillRequirements[i] > 0 && i < |r.skills| && r.skills[i] > 0 {
        count := count + 1;
      }
    }
  }

  /** The multi-use top-up: versatile free resources not yet taken are
      appended until the list reaches `required`. */
  method TopUp(available: seq<Resource>, a: Activity, taken: seq<int>, base: seq<Resource>, required: int)
    returns (suitable: seq<Resource>)
    requires |base| < required
    ensures suitable == base + Take(Fillers(available, a, taken), required - |base|)
  {
    suitable := base;
    for k := 0 to |available|
      invariant suitable == base + Fillers(available[..k], a, taken)
      invariant |suitable| < required
    {
      assert available[..k + 1][..k] == available[..k];
      var r := available[k];
      if r.id in taken {
        continue;
      }
      var covered := CountCovered(a, r);
      if covered >= 2 {
        suitable := suitable + [r];
        if |suitable| >= required {
          assert suitable == base + Fillers(available[..k + 1], a, taken);
          TakeFillers(available, a, taken, k + 1, required - |base|);
          return;
        }
      }
    }
    assert available[..|available|] == available;
  }

  /** Fillers of a prefix that number exactly `n` are the first `n` fillers. */
  lemma TakeFillers(avail: seq<Resource>, a: Activity, taken: seq<int>, k: nat, n: int)
    requires k <= |avail| && |Fillers(avail[..k], a, taken)| == n
    ensures Take(Fillers(avail, a, taken), n) == Fillers(avail[..k], a, taken)
  {
    FillersPrefix(avail, a, taken, k);
  }

  // ---- what the lists hold ----

  /** The fillers among a prefix are a prefix of all the fillers. */
  lemma {:induction false} FillersPrefix(avail: seq<Resource>, a: Activity, taken: seq<int>, k: nat)
    requires k <= |avail|
    ensures var f := Fillers(avail[..k], a, taken);
      |f| <= |Fillers(avail, a, taken)| && f == Fillers(avail, a, taken)[..|f|]
    decreases |avail| - k
  {
    if k < |avail| {
      FillersPrefix(avail, a, taken, k + 1);
      assert avail[..k + 1][..k] == avail[..k];
    } else {
      assert avail[..k] == avail;
    }
  }

  lemma {:induction false} AvailableMembers(res: seq<Resource>, s: int, e: int, cal: Calendar)
    ensures forall r :: r in Available(res, s, e, cal) ==> r in res && TimeFree(cal, r.id, s, e)
  {
    if res != [] {
      AvailableMembers(res[..|res| - 1], s, e, cal);
      assert forall r :: r in res[..|res| - 1] ==> r in res;
    }
  }

  lemma {:induction false} SuitableMembers(avail: seq<Resource>, a: Activity, idx: nat, level: int,
                                           taken: seq<int>)
    ensures forall r :: r in Suitable(avail, a, idx, level, taken) ==>
      r in avail && r.id !in taken && Holds(r, idx) && LevelOk(level, a, idx, r)
  {
    if avail != [] {
      SuitableMembers(avail[..|avail| - 1], a, idx, level, taken);
      assert forall r :: r in avail[..|avail| - 1] ==> r in avail;
    }
  }

  lemma {:induction false} FillersMembers(avail: seq<Resource>, a: Activity, taken: seq<int>)
    ensures forall r :: r in Fillers(avail, a, taken) ==> r in avail && r.id !in taken && Versatile(a, r)
  {
    if avail != [] {
      FillersMembers(avail[..|avail| - 1], a, taken);
      assert forall r :: r in avail[..|avail| - 1] ==> r in avail;
    }
  }

  /** At levels 0 to 2, how many free resources hold skill idx and pass the
      level test, taken or not. */
  function QualifiedCount(avail: seq<Resource>, a: Activity, idx: nat, level: int): nat
  {
    if avail == [] then 0
    else
      var r := avail[|avail| - 1];
      QualifiedCount(avail[..|avail| - 1], a, idx, level) + (if Holds(r, idx) && LevelOk(level, a, idx, r) then 1 else 0)
  }

  lemma {:induction false} SuitableAtMostQualified(avail: seq<Resource>, a: Activity, idx: nat, level: int,
                                                   taken: seq<int>)
    ensures |Suitable(avail, a, idx, level, taken)| <= QualifiedCount(avail, a, idx, level)
  {
    if avail != [] {
      SuitableAtMostQualified(avail[..|avail| - 1], a, idx, level, taken);
    }
  }

  /** With resources numbered by position, a suitable list has no repeated
      resource: ids increase along it. */
  lemma {:induction false} SuitableIncreasing(avail: seq<Resource>, a: Activity, idx: nat, level: int,
                                              taken: seq<int>)
    requires Increasing(ResIds(avail))
    ensures Increasing(ResIds(Suitable(avail, a, idx, level, taken)))
    ensures forall r :: r in Suitable(avail, a, idx, level, taken) ==> r in avail
  {
    if avail != [] {
      var init := avail[..|avail| - 1];
      assert ResIds(init) == ResIds(avail)[..|avail| - 1];
      SuitableIncreasing(init, a, idx, level, taken);
      var s0 := Suitable(init, a, idx, level, taken);
      var last := avail[|avail| - 1];
      assert forall r :: r in init ==> r.id < last.id by {
        forall r | r in init ensures r.id < last.id {
          var k :| 0 <= k < |init| && init[k] == r;
          assert ResIds(avail)[k] < ResIds(avail)[|avail| - 1];
        }
      }
      assert forall r :: r in init ==> r in avail;
      if Suitable(avail, a, idx, level, taken) != s0 {
        IncreasingSnoc(s0, last);
      }
    }
  }

  /** Appending a resource whose id exceeds every id in the list keeps ids increasing. */
  lemma IncreasingSnoc(rs: seq<Resource>, r: Resource)
    requires Increasing(ResIds(rs)) && forall q :: q in rs ==> q.id < r.id
    ensures Increasing(ResIds(rs + [r]))
  {
    var s := rs + [r];
    forall k, m | 0 <= k < m < |s| ensures ResIds(s)[k] < ResIds(s)[m] {
      if m == |rs| {
        assert rs[k] in rs;
      } else {
        assert ResIds(s)[k] == ResIds(rs)[k] && ResIds(s)[m] == ResIds(rs)[m];
      }
    }
  }

  lemma {:induction false} AvailableIncreasing(res: seq<Resource>, s: int, e: int, cal: Calendar)
    requires ResourcesIndexed(res)
    ensures Increasing(ResIds(Available(res, s, e, cal)))
    ensures forall r :: r in Available(res, s, e, cal) ==> 0 <= r.id < |res| && res[r.id] == r
  {
    if res != [] {
      var init := res[..|res| - 1];
      assert ResourcesIndexed(init);
      AvailableIncreasing(init, s, e, cal);
      var av0 := Available(init, s, e, cal);
      var av := Available(res, s, e, cal);
      var last := res[|res| - 1];
      assert last.id == |res| - 1;
      if av != av0 {
        IncreasingSnoc(av0, last);
      }
    }
  }

  lemma ResIdsMembers(rs: seq<Resource>, x: int)
    requires x in ResIds(rs)
    ensures exists r :: r in rs && r.id == x
  {
    var k :| 0 <= k < |rs| && ResIds(rs)[k] == x;
    assert rs[k] in rs;
  }

  lemma ResIdsSnoc(rs: seq<Resource>, b: seq<Resource>)
    ensures ResIds(rs + b) == ResIds(rs) + ResIds(b)
  {
  }

  /** Who may fill a slot of skill t at a relaxation level: a free resource
      holding the skill at a passing level, or at level 3 and above any free
      versatile one. */
  predicate Qualifies(level: int, a: Activity, t: nat, r: Resource)
  {
    (Holds(r, t) && LevelOk(level, a, t, r)) || (level >= 3 && Versatile(a, r))
  }

  /** What block t promises: as many resources as demanded (none for a
      non-positive demand), each free and qualified, none taken to an
      earlier skill. */
  ghost predicate RelaxedBlockOk(avail: seq<Resource>, a: Activity, level: int, bs: seq<seq<Resource>>, t: nat)
    requires t < |bs| && t < |a.skillRequirements|
  {
    (a.skillRequirements[t] <= 0 ==> bs[t] == []) &&
    (a.skillRequirements[t] > 0 ==> |bs[t]| == a.skillRequirements[t]) &&
    (forall r :: r in bs[t] ==> r in avail && Qualifies(level, a, t, r) && r.id !in ResIds(Flatten(bs[..t])))
  }

  lemma {:induction false} RelaxedBlocksSound(avail: seq<Resource>, a: Activity, level: int, done: seq<seq<Resource>>)
    requires |done| <= |a.skillRequirements|
    decreases |a.skillRequirements| - |done|
    ensures RelaxedBlocks(avail, a, level, done).Some? ==>
      var bs := RelaxedBlocks(avail, a, level, done).value;
      |bs| == |a.skillRequirements| && bs[..|done|] == done &&
      forall t :: |done| <= t < |bs| ==> RelaxedBlockOk(avail, a, level, bs, t)
  {
    if |done| < |a.skillRequirements| {
      var t0 := |done|;
      var req := a.skillRequirements[t0];
      var taken := ResIds(Flatten(done));
      var pool := Pool(avail, a, t0, level, taken);
      if req == 0 || |pool| >= req {
        var b := if req == 0 then [] else Take(pool, req);
        assert forall r :: r in b ==> r in avail && Qualifies(level, a, t0, r) && r.id !in taken by {
          SuitableMembers(avail, a, t0, level, taken);
          FillersMembers(avail, a, taken);
          var s := Suitable(avail, a, t0, level, taken);
          forall r | r in b ensures r in avail && Qualifies(level, a, t0, r) && r.id !in taken {
            assert r in pool;
            if r !in s {
              assert level >= 3 && |s| < req;
              assert r in Fillers(avail, a, taken);
            }
          }
        }
        RelaxedBlocksSound(avail, a, level, done + [b]);
        assert RelaxedBlocks(avail, a, level, done) == RelaxedBlocks(avail, a, level, done + [b]);
        if RelaxedBlocks(avail, a, level, done).Some? {
          var bs := RelaxedBlocks(avail, a, level, done).value;
          assert bs[..t0 + 1] == done + [b];
          assert bs[t0] == b;
          assert bs[..t0] == (done + [b])[..t0];
          assert RelaxedBlockOk(avail, a, level, bs, t0);
        }
      }
    }
  }

  /** A successful match at any level: the ids split into one block per
      skill, each with as many resources as the skill demands, each resource
      free over [start, start + duration) and qualified for its skill at that
      level, and none taken from an earlier skill's block. */
  lemma RelaxedMatchBlocks(res: seq<Resource>, a: Activity, start: int, cal: Calendar, level: int)
    requires RelaxedMatch(res, a, start, cal, level).Some? && !Dummy(a)
    ensures var avail := Available(res, start, start + a.duration, cal);
      var bs := RelaxedBlocks(avail, a, level, []).value;
      RelaxedMatch(res, a, start, cal, level).value == ResIds(Flatten(bs)) &&
      |bs| == |a.skillRequirements| &&
      (forall t :: 0 <= t < |bs| ==> RelaxedBlockOk(avail, a, level, bs, t)) &&
      (forall r :: r in avail ==> r in res && TimeFree(cal, r.id, start, start + a.duration))
  {
    var avail := Available(res, start, start + a.duration, cal);
    RelaxedBlocksSound(avail, a, level, []);
    AvailableMembers(res, start, start + a.duration, cal);
  }

  /** Every returned id, at every level and fillers included, belongs to a
      resource with no recorded interval meeting [start, start + duration). */
  lemma RelaxedMatchFree(res: seq<Resource>, a: Activity, start: int, cal: Calendar, level: int)
    ensures RelaxedMatch(res, a, start, cal, level).Some? ==>
      forall x :: x in RelaxedMatch(res, a, start, cal, level).value ==>
        TimeFree(cal, x, start, start + a.duration) && exists r :: r in res && r.id == x
  {
    if RelaxedMatch(res, a, start, cal, level).Some? && !Dummy(a) {
      var avail := Available(res, start, start + a.duration, cal);
      var bs := RelaxedBlocks(avail, a, level, []).value;
      RelaxedMatchBlocks(res, a, start, cal, level);
      FlattenMembers(bs);
      forall x | x in RelaxedMatch(res, a, start, cal, level).value
        ensures TimeFree(cal, x, start, start + a.duration) && exists r :: r in res && r.id == x
      {
        ResIdsMembers(Flatten(bs), x);
        var r: Resource :| r in Flatten(bs) && r.id == x;
        var t :| 0 <= t < |bs| && r in bs[t];
        assert RelaxedBlockOk(avail, a, level, bs, t);
      }
    }
  }

  /** Below level 3 the blocks come from the suitable lists alone, so with
      resources numbered by position the returned ids are pairwise distinct
      and name existing resources. */
  lemma {:induction false} RelaxedBlocksDistinct(avail: seq<Resource>, a: Activity, level: int,
                                                 done: seq<seq<Resource>>)
    requires level < 3 && Increasing(ResIds(avail)) && NoDup(ResIds(Flatten(done)))
    requires |done| <= |a.skillRequirements|
    decreases |a.skillRequirements| - |done|
    ensures RelaxedBlocks(avail, a, level, done).Some? ==>
      NoDup(ResIds(Flatten(RelaxedBlocks(avail, a, level, done).value)))
  {
    if |done| < |a.skillRequirements| {
      var t0 := |done|;
      var req := a.skillRequirements[t0];
      var taken := ResIds(Flatten(done));
      var s := Suitable(avail, a, t0, level, taken);
      if req == 0 || |s| >= req {
        var b := if req == 0 then [] else Take(s, req);
        SuitableIncreasing(avail, a, t0, level, taken);
        SuitableMembers(avail, a, t0, level, taken);
        assert ResIds(b) == ResIds(s)[..|b|];
        FlattenSnoc(done, b);
        ResIdsSnoc(Flatten(done), b);
        forall y | y in ResIds(b) ensures y !in taken {
          ResIdsMembers(b, y);
        }
        NoDupAppend(taken, ResIds(b));
        RelaxedBlocksDistinct(avail, a, level, done + [b]);
      }
    }
  }

  lemma RelaxedMatchDistinct(res: seq<Resource>, a: Activity, start: int, cal: Calendar, level: int)
    requires ResourcesIndexed(res) && level < 3
    ensures RelaxedMatch(res, a, start, cal, level).Some? ==>
      NoDup(RelaxedMatch(res, a, start, cal, level).value) &&
      forall x :: x in RelaxedMatch(res, a, start, cal, level).value ==> 0 <= x < |res|
  {
    var avail := Available(res, start, start + a.duration, cal);
    AvailableIncreasing(res, start, start + a.duration, cal);
    RelaxedBlocksDistinct(avail, a, level, []);
    RelaxedMatchFree(res, a, start, cal, level);
    if RelaxedMatch(res, a, start, cal, level).Some? {
      forall x | x in RelaxedMatch(res, a, start, cal, level).value ensures 0 <= x < |res| {
        var r :| r in res && r.id == x;
        var k :| 0 <= k < |res| && res[k] == r;
      }
    }
  }

  /** Below level 3, a demanded skill with fewer free qualified resources
      than it demands makes the match fail (unless the activity is a dummy). */
  lemma {:induction false} RelaxedBlocksShort(avail: seq<Resource>, a: Activity, level: int,
                                              done: seq<seq<Resource>>, t: nat)
    requires level < 3 && |done| <= t < |a.skillRequirements| && a.skillRequirements[t] > 0
    requires QualifiedCount(avail, a, t, level) < a.skillRequirements[t]
    decreases |a.skillRequirements| - |done|
    ensures RelaxedBlocks(avail, a, level, done).None?
  {
    var t0 := |done|;
    var req := a.skillRequirements[t0];
    var taken := ResIds(Flatten(done));
    SuitableAtMostQualified(avail, a, t0, level, taken);
    if t0 < t && (req == 0 || |Pool(avail, a, t0, level, taken)| >= req) {
      var b := if req == 0 then [] else Take(Pool(avail, a, t0, level, taken), req);
      RelaxedBlocksShort(avail, a, level, done + [b], t);
    }
  }

  lemma RelaxedMatchNeedsEnough(res: seq<Resource>, a: Activity, start: int, cal: Calendar, level: int, t: nat)
    requires !Dummy(a) && level < 3
    requires t < |a.skillRequirements| && a.skillRequirements[t] > 0
    requires QualifiedCount(Available(res, start, start + a.duration, cal), a, t, level) < a.skillRequirements[t]
    ensures RelaxedMatch(res, a, start, cal, level) == None
  {
    RelaxedBlocksShort(Available(res, start, start + a.duration, cal), a, level, [], t);
  }

  // ---- the level ladder ----

  /** Where the required level is at least 1, each rung accepts whatever the
      rung below accepted, and level 2 accepts anyone; at required level 0,
      level 1 rejects a level-0 resource that level 0 accepts. */
  lemma LevelLadder(a: Activity, idx: nat, r: Resource)
    ensures (idx < |a.skillLevelRequirements| ==> a.skillLevelRequirements[idx] >= 1) ==>
      (LevelOk(0, a, idx, r) ==> LevelOk(1, a, idx, r))
    ensures LevelOk(2, a, idx, r) && LevelOk(3, a, idx, r)
    ensures (idx < |a.skillLevelRequirements| && idx < |r.skillLevels| &&
             a.skillLevelRequirements[idx] == 0 && r.skillLevels[idx] == 0) ==>
      LevelOk(0, a, idx, r) && !LevelOk(1, a, idx, r)
  {
  }

  /** The example below: resource 0 holds skills 0 and 1, resource 1 only
      skill 1, and the activity needs two of skill 0 and one of skill 1. */
  function ExampleResources(): seq<Resource>
  {
    [Resource(0, [1, 1], []), Resource(1, [0, 1], [])]
  }

  function ExampleActivity(): Activity
  {
    NewActivity(0, 1, [], 2).(skillRequirements := [2, 1])
  }

  lemma ExampleAvailable()
    ensures Available(ExampleResources(), 0, 1, map[]) == ExampleResources()
    ensures !Dummy(ExampleActivity())
  {
    var res := ExampleResources();
    assert res[..1] == [res[0]] && [res[0]][..0] == [];
    assert TimeFree(map[], 0, 0, 1) && TimeFree(map[], 1, 0, 1);
    assert Available([res[0]], 0, 1, map[]) == [res[0]];
    var reqs := ExampleActivity().skillRequirements;
    assert reqs[..1] == [2] && [2][..0] == [];
  }

  lemma ExampleCovered()
    ensures !Versatile(ExampleActivity(), ExampleResources()[1])
    ensures Versatile(ExampleActivity(), ExampleResources()[0])
  {
    var res, a := ExampleResources(), ExampleActivity();
    assert Covered(a, res[0], 1) == 1 && Covered(a, res[1], 1) == 0;
  }

  lemma ExampleSuitableSkill0()
    ensures var res := ExampleResources();
      Suitable(res, ExampleActivity(), 0, 3, []) == [res[0]]
  {
    var res, a := ExampleResources(), ExampleActivity();
    var r0 := res[0];
    assert res[..1] == [r0] && [r0][..0] == [];
    assert Suitable([r0], a, 0, 3, []) == [r0];
  }

  lemma ExampleFillers()
    ensures var res := ExampleResources();
      Fillers(res, ExampleActivity(), []) == [res[0]]
  {
    var res, a := ExampleResources(), ExampleActivity();
    var r0 := res[0];
    ExampleCovered();
    assert res[..1] == [r0] && [r0][..0] == [];
    assert Fillers([r0], a, []) == [r0];
  }

  lemma ExamplePoolSkill0()
    ensures var res := ExampleResources();
      Pool(res, ExampleActivity(), 0, 3, []) == [res[0], res[0]]
  {
    ExampleSuitableSkill0();
    ExampleFillers();
  }

  lemma ExamplePoolSkill1()
    ensures var res := ExampleResources();
      Pool(res, ExampleActivity(), 1, 3, [0, 0]) == [res[1]]
  {
    var res, a := ExampleResources(), ExampleActivity();
    var r0 := res[0];
    assert res[..1] == [r0] && [r0][..0] == [];
    assert Suitable([r0], a, 1, 3, [0, 0]) == [];
  }

  lemma ExamplePoolLevel2()
    ensures var res := ExampleResources();
      Pool(res, ExampleActivity(), 0, 2, []) == [res[0]]
  {
    var res, a := ExampleResources(), ExampleActivity();
    var r0 := res[0];
    assert res[..1] == [r0] && [r0][..0] == [];
    assert Suitable([r0], a, 0, 2, []) == [r0];
  }

  lemma ExampleBlocksLevel3()
    ensures var r0, r1 := ExampleResources()[0], ExampleResources()[1];
      RelaxedBlocks(ExampleResources(), ExampleActivity(), 3, []) == Some([[r0, r0], [r1]])
  {
    var res, a := ExampleResources(), ExampleActivity();
    var r0, r1 := res[0], res[1];
    var none: seq<seq<Resource>> := [];
    var first := [[r0, r0]];
    var both := [[r0, r0], [r1]];
    ExamplePoolSkill0();
    ExamplePoolSkill1();
    assert ResIds(Flatten(none)) == [];
    assert Take([r0, r0], 2) == [r0, r0];
    BlocksStep(res, a, 3, none, [r0, r0]);
    assert none + [[r0, r0]] == first;
    assert Flatten(first) == [r0, r0] by {
      assert first[..0] == none;
    }
    assert ResIds([r0, r0]) == [0, 0];
    assert Take([r1], 1) == [r1];
    BlocksStep(res, a, 3, first, [r1]);
    assert first + [[r1]] == both;
    assert RelaxedBlocks(res, a, 3, both) == Some(both);
  }

  /** An instance where the multi-use rung hands the same resource two slots
      of one activity: level 3 returns [0, 0, 1], where level 2 fails. */
  lemma MultiUseRepeatsResource()
    ensures RelaxedMatch(ExampleResources(), ExampleActivity(), 0, map[], 3) == Some([0, 0, 1])
    ensures RelaxedMatch(ExampleResources(), ExampleActivity(), 0, map[], 2) == None
  {
    var res, a := ExampleResources(), ExampleActivity();
    var r0, r1 := res[0], res[1];
    ExampleAvailable();
    ExampleBlocksLevel3();
    var bs := [[r0, r0], [r1]];
    assert Flatten(bs) == [r0, r0, r1] by {
      assert bs[..1] == [[r0, r0]] && [[r0, r0]][..0] == [];
    }
    assert ResIds([r0, r0, r1]) == [0, 0, 1];
    assert a.duration == 1;
    ExamplePoolLevel2();
    assert ResIds(Flatten<Resource>([])) == [];
  }
}
