/** The strict resource matcher of the single-pass scheduler
    (msrcpsp_final.py can_schedule_activity): for each demanded skill in
    turn, the resources that hold it, meet the level and are free over
    [start, start + duration), minus those already taken by earlier skills;
    the first `required` of them are taken, and a shortfall fails. */
module StrictMatcher {
  import opened Wrappers
  import opened Project
  import opened Intervals
  import opened IdLists

  /** A duration-0 activity or one whose demands sum to 0 needs nobody. */
  predicate Dummy(a: Activity)
  {
    a.duration == 0 || Sum(a.skillRequirements) == 0
  }

  predicate HasSkill(r: Resource, idx: nat)
  {
    idx < |r.skills| && r.skills[idx] != 0
  }

  /** The level test, applied only when both level lists cover the skill. */
  predicate MeetsLevel(a: Activity, idx: nat, r: Resource)
  {
    !(idx < |a.skillLevelRequirements| && idx < |r.skillLevels| &&
      r.skillLevels[idx] < a.skillLevelRequirements[idx])
  }

  predicate Eligible(a: Activity, idx: nat, r: Resource, start: int, cal: Calendar)
  {
    HasSkill(r, idx) && MeetsLevel(a, idx, r) && TimeFree(cal, r.id, start, start + a.duration)
  }

  /** available_for_skill: ids of eligible resources not already taken, in list order. */
  function Candidates(res: seq<Resource>, a: Activity, idx: nat, start: int, cal: Calendar,
                      taken: seq<int>): seq<int>
  {
    if res == [] then []
    else
      var r := res[|res| - 1];
      Candidates(res[..|res| - 1], a, idx, start, cal, taken) +
        (if Eligible(a, idx, r, start, cal) && r.id !in taken then [r.id] else [])
  }

  /** How many resources are eligible for skill idx, taken or not. */
  function EligibleCount(res: seq<Resource>, a: Activity, idx: nat, start: int, cal: Calendar): nat
  {
    if res == [] then 0
    else
      EligibleCount(res[..|res| - 1], a, idx, start, cal) +
        (if Eligible(a, idx, res[|res| - 1], start, cal) then 1 else 0)
  }

  /** Python's xs[:k], where a negative k drops the last -k elements. */
  function PyTake(xs: seq<int>, k: int): (r: seq<int>)
    ensures |r| <= |xs| && r == xs[..|r|]
    ensures 0 <= k <= |xs| ==> |r| == k
  {
    if k >= 0 then (if k <= |xs| then xs[..k] else xs)
    else if |xs| + k <= 0 then [] else xs[..|xs| + k]
  }

  function Flatten<T>(bs: seq<seq<T>>): seq<T>
  {
    if bs == [] then [] else Flatten(bs[..|bs| - 1]) + bs[|bs| - 1]
  }

  /** The blocks of resource ids assigned to skills |done| .. in turn, after
      the blocks `done` for the skills before; None at the first shortfall. */
  function StrictBlocks(res: seq<Resource>, a: Activity, start: int, cal: Calendar,
                        done: seq<seq<int>>): Option<seq<seq<int>>>
    decreases |a.skillRequirements| - |done|
  {
    if |done| >= |a.skillRequirements| then Some(done)
    else
      var req := a.skillRequirements[|done|];
      if req == 0 then StrictBlocks(res, a, start, cal, done + [[]])
      else
        var c := Candidates(res, a, |done|, start, cal, Flatten(done));
        if |c| < req then None else StrictBlocks(res, a, start, cal, done + [PyTake(c, req)])
  }

  /** What can_schedule_activity returns: Some(ids) for (True, ids), None for (False, []). */
  function StrictMatch(res: seq<Resource>, a: Activity, start: int, cal: Calendar): (r: Option<seq<int>>)
    ensures Dummy(a) ==> r == Some([])
  {
    if Dummy(a) then Some([])
    else match StrictBlocks(res, a, start, cal, [])
      case None => None
      case Some(bs) => Some(Flatten(bs))
  }

  method CanScheduleActivity(res: seq<Resource>, a: Activity, start: int, cal: Calendar)
    returns (ok: bool, ids: seq<int>)
    ensures ok <==> StrictMatch(res, a, start, cal).Some?
    ensures ids == if ok then StrictMatch(res, a, start, cal).value else []
  {
    var endTime := start + a.duration;
    if a.duration == 0 || Sum(a.skillRequirements) == 0 {
      return true, [];
    }
    var reqs := a.skillRequirements;
    var taken: seq<int> := [];
    ghost var done: seq<seq<int>> := [];
    for idx := 0 to |reqs|
      invariant |done| == idx && taken == Flatten(done)
      invariant StrictBlocks(res, a, start, cal, []) == StrictBlocks(res, a, start, cal, done)
    {
      var required := reqs[idx];
      if required == 0 {
        FlattenSnoc(done, []);
        done := done + [[]];
        continue;
      }
      var available: seq<int> := [];
      for k := 0 to |res|
        invariant available == Candidates(res[..k], a, idx, start, cal, taken)
      {
        assert res[..k + 1][..k] == res[..k];
        var r := res[k];
        if idx >= |r.skills| || r.skills[idx] == 0 {
          continue;
        }
        if |a.skillLevelRequirements| > idx && |a.skillLevelRequirements| > 0 {
          var requiredLevel := a.skillLevelRequirements[idx];
          if idx < |r.skillLevels| && r.skillLevels[idx] < requiredLevel {
            continue;
          }
        }
        var free := IsTimeFree(cal, r.id, start, endTime);
        if r.id !in taken && free {
          available := available + [r.id];
        }
      }
      assert res[..|res|] == res;
      if |available| < required {
        return false, [];
      }
      var block := PyTake(available, required);
      FlattenSnoc(done, block);
      taken := taken + block;
      done := done + [block];
    }
    return true, taken;
  }

  // ---- what a successful match guarantees ----

  lemma FlattenSnoc<T>(bs: seq<seq<T>>, b: seq<T>)
    ensures Flatten(bs + [b]) == Flatten(bs) + b
  {
    assert (bs + [b])[..|bs|] == bs;
  }

  /** With resources numbered by position, the candidates are increasing
      positions of eligible resources outside `taken`, at most as many as
      there are eligible resources. */
  lemma {:induction false} CandidatesProps(res: seq<Resource>, a: Activity, idx: nat, start: int,
                                           cal: Calendar, taken: seq<int>)
    requires ResourcesIndexed(res)
    ensures Increasing(Candidates(res, a, idx, start, cal, taken))
    ensures forall x :: x in Candidates(res, a, idx, start, cal, taken) ==>
      0 <= x < |res| && Eligible(a, idx, res[x], start, cal) && x !in taken
    ensures |Candidates(res, a, idx, start, cal, taken)| <= EligibleCount(res, a, idx, start, cal)
  {
    if res != [] {
      var init := res[..|res| - 1];
      assert ResourcesIndexed(init);
      CandidatesProps(init, a, idx, start, cal, taken);
      var c0 := Candidates(init, a, idx, start, cal, taken);
      var r := res[|res| - 1];
      assert r.id == |res| - 1;
      assert forall x :: x in c0 ==> x < r.id && init[x] == res[x];
      var c := Candidates(res, a, idx, start, cal, taken);
      forall k, m | 0 <= k < m < |c| ensures c[k] < c[m] {
        if m == |c0| {
          assert c0[k] in c0;
        }
      }
    }
  }

  /** What block `b` for skill t promises: the required number of ids when
      the skill is demanded, none when it is not, and every id the position
      of a resource that holds the skill, meets the level and is free. */
  ghost predicate BlockOk(res: seq<Resource>, a: Activity, start: int, cal: Calendar, t: nat, b: seq<int>)
    requires t < |a.skillRequirements|
  {
    (a.skillRequirements[t] == 0 ==> b == []) &&
    (a.skillRequirements[t] > 0 ==> |b| == a.skillRequirements[t]) &&
    (forall x :: x in b ==> 0 <= x < |res| && Eligible(a, t, res[x], start, cal))
  }

  lemma {:induction false} StrictBlocksSound(res: seq<Resource>, a: Activity, start: int, cal: Calendar,
                                             done: seq<seq<int>>)
    requires ResourcesIndexed(res) && NoDup(Flatten(done)) && |done| <= |a.skillRequirements|
    decreases |a.skillRequirements| - |done|
    ensures StrictBlocks(res, a, start, cal, done).Some? ==>
      var bs := StrictBlocks(res, a, start, cal, done).value;
      |bs| == |a.skillRequirements| && bs[..|done|] == done && NoDup(Flatten(bs)) &&
      (forall t :: |done| <= t < |bs| ==> BlockOk(res, a, start, cal, t, bs[t]))
  {
    if |done| < |a.skillRequirements| {
      var t0 := |done|;
      var req := a.skillRequirements[t0];
      var c := Candidates(res, a, t0, start, cal, Flatten(done));
      if req == 0 || |c| >= req {
        var b := if req == 0 then [] else PyTake(c, req);
        assert StrictBlocks(res, a, start, cal, done) == StrictBlocks(res, a, start, cal, done + [b]);
        assert BlockOk(res, a, start, cal, t0, b) && NoDup(Flatten(done + [b])) by {
          CandidatesProps(res, a, t0, start, cal, Flatten(done));
          assert forall x :: x in b ==> x in c;
          FlattenSnoc(done, b);
          assert NoDup(b) by {
            assert Increasing(b);
          }
          NoDupAppend(Flatten(done), b);
        }
        StrictBlocksSound(res, a, start, cal, done + [b]);
        if StrictBlocks(res, a, start, cal, done).Some? {
          var bs := StrictBlocks(res, a, start, cal, done).value;
          assert bs[..|done| + 1] == done + [b];
          assert bs[t0] == b;
          assert bs[..|done|] == (done + [b])[..|done|];
          forall t | |done| <= t < |bs| ensures BlockOk(res, a, start, cal, t, bs[t]) {
            if t > t0 {
              assert |done + [b]| <= t;
            }
          }
        }
      }
    }
  }

  /** A demanded skill from |done| on with fewer eligible resources than it
      requires makes the remaining assignment fail. */
  lemma {:induction false} StrictBlocksShort(res: seq<Resource>, a: Activity, start: int, cal: Calendar,
                                             done: seq<seq<int>>, t: nat)
    requires ResourcesIndexed(res) && |done| <= t < |a.skillRequirements| && a.skillRequirements[t] > 0
    requires EligibleCount(res, a, t, start, cal) < a.skillRequirements[t]
    decreases |a.skillRequirements| - |done|
    ensures StrictBlocks(res, a, start, cal, done).None?
  {
    var t0 := |done|;
    var req := a.skillRequirements[t0];
    var c := Candidates(res, a, t0, start, cal, Flatten(done));
    CandidatesProps(res, a, t0, start, cal, Flatten(done));
    if req == 0 || |c| >= req {
      var b := if req == 0 then [] else PyTake(c, req);
      assert StrictBlocks(res, a, start, cal, done) == StrictBlocks(res, a, start, cal, done + [b]);
      assert t != t0;
      StrictBlocksShort(res, a, start, cal, done + [b], t);
    }
  }

  /** On success, the ids are pairwise distinct, each names a resource free
      over [start, start + duration), and unless the activity is a dummy they
      split into one block per skill with exactly the required number of
      resources holding that skill at the required level. */
  lemma StrictMatchSound(res: seq<Resource>, a: Activity, start: int, cal: Calendar)
    requires ResourcesIndexed(res)
    ensures StrictMatch(res, a, start, cal).Some? ==>
      var ids := StrictMatch(res, a, start, cal).value;
      NoDup(ids) &&
      (forall x :: x in ids ==> 0 <= x < |res| && TimeFree(cal, x, start, start + a.duration))
    ensures StrictMatch(res, a, start, cal).Some? && !Dummy(a) ==>
      var bs := StrictBlocks(res, a, start, cal, []).value;
      StrictMatch(res, a, start, cal).value == Flatten(bs) && |bs| == |a.skillRequirements| &&
      forall t :: 0 <= t < |bs| ==> BlockOk(res, a, start, cal, t, bs[t])
  {
    StrictBlocksSound(res, a, start, cal, []);
    if StrictMatch(res, a, start, cal).Some? && !Dummy(a) {
      var bs := StrictBlocks(res, a, start, cal, []).value;
      FlattenMembers(bs);
      forall x | x in Flatten(bs) ensures 0 <= x < |res| && TimeFree(cal, x, start, start + a.duration) {
        var t :| 0 <= t < |bs| && x in bs[t];
        assert BlockOk(res, a, start, cal, t, bs[t]);
      }
    }
  }

  lemma {:induction false} FlattenMembers<T>(bs: seq<seq<T>>)
    ensures forall x :: x in Flatten(bs) ==> exists t :: 0 <= t < |bs| && x in bs[t]
  {
    if bs != [] {
      FlattenMembers(bs[..|bs| - 1]);
      forall x | x in Flatten(bs) ensures exists t :: 0 <= t < |bs| && x in bs[t] {
        if x in Flatten(bs[..|bs| - 1]) {
          var t :| 0 <= t < |bs| - 1 && x in bs[..|bs| - 1][t];
          assert x in bs[t];
        } else {
          assert x in bs[|bs| - 1];
        }
      }
    }
  }

  /** A demanded skill with fewer eligible resources than required makes the
      match fail (unless the activity is a dummy). */
  lemma StrictMatchNeedsEnough(res: seq<Resource>, a: Activity, start: int, cal: Calendar, t: nat)
    requires ResourcesIndexed(res) && !Dummy(a)
    requires t < |a.skillRequirements| && a.skillRequirements[t] > 0
    requires EligibleCount(res, a, t, start, cal) < a.skillRequirements[t]
    ensures StrictMatch(res, a, start, cal) == None
  {
    StrictBlocksShort(res, a, start, cal, [], t);
  }

  /** Whatever the numbering of resources, every id a match returns is free
      over [start, start + duration). */
  lemma {:induction false} CandidatesFree(res: seq<Resource>, a: Activity, idx: nat, start: int,
                                          cal: Calendar, taken: seq<int>)
    ensures forall x :: x in Candidates(res, a, idx, start, cal, taken) ==>
      TimeFree(cal, x, start, start + a.duration)
  {
    if res != [] {
      CandidatesFree(res[..|res| - 1], a, idx, start, cal, taken);
    }
  }

  lemma {:induction false} StrictBlocksFree(res: seq<Resource>, a: Activity, start: int, cal: Calendar,
                                            done: seq<seq<int>>)
    requires forall x :: x in Flatten(done) ==> TimeFree(cal, x, start, start + a.duration)
    decreases |a.skillRequirements| - |done|
    ensures StrictBlocks(res, a, start, cal, done).Some? ==>
      forall x :: x in Flatten(StrictBlocks(res, a, start, cal, done).value) ==>
        TimeFree(cal, x, start, start + a.duration)
  {
    if |done| < |a.skillRequirements| {
      var req := a.skillRequirements[|done|];
      var c := Candidates(res, a, |done|, start, cal, Flatten(done));
      CandidatesFree(res, a, |done|, start, cal, Flatten(done));
      var b := if req == 0 then [] else PyTake(c, req);
      if req == 0 || |c| >= req {
        FlattenSnoc(done, b);
        assert forall x :: x in b ==> x in c;
        StrictBlocksFree(res, a, start, cal, done + [b]);
      }
    }
  }

  lemma StrictMatchFree(res: seq<Resource>, a: Activity, start: int, cal: Calendar)
    ensures StrictMatch(res, a, start, cal).Some? ==>
      forall x :: x in StrictMatch(res, a, start, cal).value ==> TimeFree(cal, x, start, start + a.duration)
  {
    StrictBlocksFree(res, a, start, cal, []);
  }
}
