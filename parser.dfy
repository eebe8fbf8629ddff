/** The parts of the instance loader that decode activity lines and
    skill-level lines, and the predecessor lists it derives afterwards
    (msrcpsp_final.py, parse_file and _compute_predecessors). The lines are
    those of the file with blank lines dropped and each line stripped. */
module InstanceParser {
  import opened Wrappers
  import opened TextInts
  import opened Project

  /** Which line could not be read: missing (IndexError) or malformed
      (ValueError from int(), IndexError from a short line). */
  datatype ParseError = MissingLine(index: int) | BadLine(index: int)

  /** Successor identifiers as written in the file (1-based) become list
      positions (0-based). */
  function ToZeroBased(ids: seq<int>): (r: seq<int>)
    ensures |r| == |ids| && forall k :: 0 <= k < |ids| ==> r[k] + 1 == ids[k]
  {
    seq(|ids|, k requires 0 <= k < |ids| => ids[k] - 1)
  }

  /** How many successor identifiers the slice data[2:2+count] keeps. */
  function KeptSuccessors(count: int, available: nat): nat
  {
    if count <= 0 then 0 else if count < available then count else available
  }

  /** Decodes the line of activity `i`: duration, successor count, then the
      successors; a non-positive count gives no successors whatever follows. */
  function DecodeActivityLine(i: int, line: string, numSkills: int): (r: Result<Activity, ParseError>)
    ensures r.Success? <==> ParseInts(line).Some? && |ParseInts(line).value| >= 2
    ensures r.Success? ==>
      var data := ParseInts(line).value;
      var a := r.value;
      a.id == i && a.duration == data[0] && a.predecessors == [] &&
      a.skillRequirements == Zeros(numSkills) && a.skillLevelRequirements == Zeros(numSkills) &&
      |a.successors| == KeptSuccessors(data[1], |data| - 2) &&
      (forall k :: 0 <= k < |a.successors| ==> a.successors[k] + 1 == data[2 + k])
    ensures r.Failure? ==> r.error == BadLine(i)
  {
    match ParseInts(line)
    case None => Failure(BadLine(i))
    case Some(data) =>
      if |data| < 2 then Failure(BadLine(i))
      else
        var n := data[1];
        var successors := if n > 0 then ToZeroBased(data[2..2 + KeptSuccessors(n, |data| - 2)]) else [];
        Success(NewActivity(i, data[0], successors, numSkills))
  }

  /** The line the file would hold for an activity with these data. */
  function EncodeActivityLine(duration: int, successors: seq<int>): string
  {
    FormatInts([duration, |successors|] + seq(|successors|, k requires 0 <= k < |successors| => successors[k] + 1))
  }

  /** Decoding an encoded activity line gives back its duration and its
      0-based successors. */
  lemma DecodeEncodeActivity(i: int, duration: int, successors: seq<int>, numSkills: int)
    ensures DecodeActivityLine(i, EncodeActivityLine(duration, successors), numSkills)
         == Success(NewActivity(i, duration, successors, numSkills))
  {
    var data := [duration, |successors|] + seq(|successors|, k requires 0 <= k < |successors| => successors[k] + 1);
    ParseFormat(data);
    var r := DecodeActivityLine(i, EncodeActivityLine(duration, successors), numSkills);
    assert r.Success?;
    assert r.value.successors == successors;
  }

  /** A level-requirement line: the sentinel "-1" stands for no level list,
      anything else is a list of integers. */
  function LevelRequirementLine(index: int, line: string): (r: Result<seq<int>, ParseError>)
    ensures line == "-1" ==> r == Success([])
    ensures line != "-1" ==> (r.Success? <==> ParseInts(line).Some?)
    ensures line != "-1" && r.Success? ==> r.value == ParseInts(line).value
  {
    if line == "-1" then Success([])
    else match ParseInts(line)
      case None => Failure(BadLine(index))
      case Some(levels) => Success(levels)
  }

  /** "-1" is not read as the one-element list [-1] it spells; every other
      written list of levels reads back as itself. An empty list cannot be
      written as a line (blank lines are dropped), hence the sentinel. */
  lemma LevelLineSentinel(levels: seq<int>)
    ensures LevelRequirementLine(0, FormatInts([-1])) == Success([])
    ensures ParseInts(FormatInts([-1])) == Some([-1])
    ensures levels != [-1] ==> LevelRequirementLine(0, FormatInts(levels)) == Success(levels)
  {
    ParseFormat([-1]);
    ParseFormat(levels);
    assert FormatInts([-1]) == "-1";
    if levels != [-1] && FormatInts(levels) == "-1" {
      assert false;
    }
  }

  /** The activity decoded from line start+i, or the IndexError a missing
      line raises. */
  function ActivityLineAt(lines: seq<string>, start: nat, i: nat, numSkills: int): Result<Activity, ParseError>
  {
    if start + i < |lines| then DecodeActivityLine(i, lines[start + i], numSkills)
    else Failure(MissingLine(start + i))
  }

  /** Reads activities 0 .. n-1 from the lines starting at `start`. */
  method DecodeActivities(lines: seq<string>, start: nat, n: int, numSkills: int)
    returns (r: Result<seq<Activity>, ParseError>)
    ensures r.Success? <==> forall i: nat :: i < n ==> ActivityLineAt(lines, start, i, numSkills).Success?
    ensures r.Success? ==> |r.value| == (if n < 0 then 0 else n) && WellIndexed(r.value)
    ensures r.Success? ==> forall i: nat :: i < |r.value| ==>
      ActivityLineAt(lines, start, i, numSkills).Success? &&
      r.value[i] == ActivityLineAt(lines, start, i, numSkills).value
  {
    var count := if n < 0 then 0 else n;
    var activities: seq<Activity> := [];
    for i := 0 to count
      invariant |activities| == i
      invariant forall j: nat :: j < i ==>
        ActivityLineAt(lines, start, j, numSkills).Success? &&
        activities[j] == ActivityLineAt(lines, start, j, numSkills).value
    {
      var decoded := ActivityLineAt(lines, start, i, numSkills);
      if decoded.Failure? {
        return Failure(decoded.error);
      }
      activities := activities + [decoded.value];
    }
    return Success(activities);
  }

  /** The level list read from line start+i, which must exist. */
  function LevelLineAt(lines: seq<string>, start: nat, i: nat): Result<seq<int>, ParseError>
    requires start + i < |lines|
  {
    LevelRequirementLine(start + i, lines[start + i])
  }

  /** Overwrites each activity's level list from the lines starting at
      `start`; activities past the last line keep theirs. */
  method ApplyLevelRequirements(acts: array<Activity>, lines: seq<string>, start: nat) returns (ok: bool)
    modifies acts
    ensures ok <==> forall i: nat :: i < acts.Length && start + i < |lines| ==> LevelLineAt(lines, start, i).Success?
    ensures ok ==> forall i: nat :: i < acts.Length ==>
      acts[i] == if start + i < |lines|
                 then old(acts[i]).(skillLevelRequirements := LevelLineAt(lines, start, i).value)
                 else old(acts[i])
  {
    for i := 0 to acts.Length
      invariant forall j: nat :: j < i && start + j < |lines| ==> LevelLineAt(lines, start, j).Success?
      invariant forall j: nat :: j < acts.Length ==>
        acts[j] == if j < i && start + j < |lines|
                   then old(acts[j]).(skillLevelRequirements := LevelLineAt(lines, start, j).value)
                   else old(acts[j])
    {
      if start + i < |lines| {
        var levels := LevelLineAt(lines, start, i);
        if levels.Failure? {
          return false;
        }
        acts[i] := acts[i].(skillLevelRequirements := levels.value);
      }
    }
    return true;
  }

  /** [id for each occurrence of j in succ]. */
  function Hits(succ: seq<int>, j: int, id: int): seq<int>
  {
    if succ == [] then []
    else Hits(succ[..|succ| - 1], j, id) + (if succ[|succ| - 1] == j then [id] else [])
  }

  /** The identifiers appended to activity j's predecessors by the linking
      pass once it has visited activities 0 .. i-1. */
  function Incoming(acts: seq<Activity>, j: int, i: nat): seq<int>
    requires i <= |acts|
  {
    if i == 0 then [] else Incoming(acts, j, i - 1) + Hits(acts[i - 1].successors, j, acts[i - 1].id)
  }

  /** Links every activity to its in-range successors: each successor s of
      activity a receives a.id at the end of its predecessor list, once per
      occurrence; out-of-range successor ids are skipped. */
  method ComputePredecessors(acts: array<Activity>)
    modifies acts
    ensures forall j :: 0 <= j < acts.Length ==> acts[j] == LinkedUpTo(old(acts[..]), j, acts.Length)
  {
    ghost var a0 := acts[..];
    for i := 0 to acts.Length
      invariant forall j :: 0 <= j < acts.Length ==> acts[j] == LinkedUpTo(a0, j, i)
    {
      LinkSuccessors(acts, a0, i);
    }
  }

  /** Activity j once the linking pass has visited activities 0 .. i-1. */
  ghost function LinkedUpTo(a0: seq<Activity>, j: nat, i: nat): Activity
    requires j < |a0| && i <= |a0|
  {
    a0[j].(predecessors := a0[j].predecessors + Incoming(a0, j, i))
  }

  /** One step of the linking pass: the successors of activity i receive
      its identifier. */
  method LinkSuccessors(acts: array<Activity>, ghost a0: seq<Activity>, i: nat)
    requires i < acts.Length == |a0|
    requires forall j :: 0 <= j < acts.Length ==> acts[j] == LinkedUpTo(a0, j, i)
    modifies acts
    ensures forall j :: 0 <= j < acts.Length ==> acts[j] == LinkedUpTo(a0, j, i + 1)
  {
    var succ := acts[i].successors;
    var id := acts[i].id;
    assert succ == a0[i].successors && id == a0[i].id;
    for k := 0 to |succ|
      invariant forall j :: 0 <= j < acts.Length ==>
        acts[j].predecessors == LinkedUpTo(a0, j, i).predecessors + Hits(succ[..k], j, id) &&
        acts[j] == LinkedUpTo(a0, j, i).(predecessors := acts[j].predecessors)
    {
      var s := succ[k];
      if 0 <= s < acts.Length {
        acts[s] := acts[s].(predecessors := acts[s].predecessors + [id]);
      }
      HitsStep(succ, k, id);
    }
    assert succ[..|succ|] == succ;
    forall j | 0 <= j < acts.Length
      ensures acts[j] == LinkedUpTo(a0, j, i + 1)
    {
      LinkedUpToStep(a0, j, i);
    }
  }

  lemma LinkedUpToStep(a0: seq<Activity>, j: nat, i: nat)
    requires j < |a0| && i < |a0|
    ensures LinkedUpTo(a0, j, i + 1).predecessors
         == LinkedUpTo(a0, j, i).predecessors + Hits(a0[i].successors, j, a0[i].id)
  {
    var p0, inc, h := a0[j].predecessors, Incoming(a0, j, i), Hits(a0[i].successors, j, a0[i].id);
    assert Incoming(a0, j, i + 1) == inc + h;
    assert (p0 + inc) + h == p0 + (inc + h);
  }

  lemma HitsStep(succ: seq<int>, k: nat, id: int)
    requires k < |succ|
    ensures forall j :: Hits(succ[..k + 1], j, id) == Hits(succ[..k], j, id) + (if succ[k] == j then [id] else [])
  {
    assert succ[..k + 1][..k] == succ[..k];
  }

  lemma {:induction false} HitsMembers(succ: seq<int>, j: int, id: int, x: int)
    ensures x in Hits(succ, j, id) <==> x == id && j in succ
  {
    if succ != [] {
      var init := succ[..|succ| - 1];
      HitsMembers(init, j, id, x);
      assert succ == init + [succ[|succ| - 1]];
    }
  }

  /** Membership in the appended part, both directions: `x` is added to j's
      predecessors exactly when some activity with identifier x names j as a
      successor. */
  lemma {:induction false} IncomingMembers(acts: seq<Activity>, j: int, i: nat, x: int)
    requires i <= |acts|
    ensures x in Incoming(acts, j, i) <==> exists a :: 0 <= a < i && acts[a].id == x && j in acts[a].successors
  {
    if i > 0 {
      IncomingMembers(acts, j, i - 1, x);
      var h := Hits(acts[i - 1].successors, j, acts[i - 1].id);
      HitsMembers(acts[i - 1].successors, j, acts[i - 1].id, x);
      assert x in Incoming(acts, j, i) <==> x in Incoming(acts, j, i - 1) || x in h;
      if x in h {
        assert 0 <= i - 1 < i && acts[i - 1].id == x && j in acts[i - 1].successors;
      }
    }
  }

  /** After linking a well-indexed list, every in-range successor lists its
      predecessor, and (activities being numbered topologically, with no
      predecessor recorded beforehand) every predecessor has a smaller index. */
  lemma LinkedAfterCompute(before: seq<Activity>, after: seq<Activity>)
    requires |after| == |before| && WellIndexed(before)
    requires forall j :: 0 <= j < |before| ==> after[j] == LinkedUpTo(before, j, |before|)
    ensures Linked(after)
    ensures (forall j :: 0 <= j < |before| ==> before[j].predecessors == []) && SuccessorsForward(before)
            ==> PredecessorsBackward(after)
  {
    forall i, k | 0 <= i < |after| && 0 <= k < |after[i].successors| && 0 <= after[i].successors[k] < |after|
      ensures i in after[after[i].successors[k]].predecessors
    {
      var s := after[i].successors[k];
      IncomingMembers(before, s, |before|, i);
    }
    if (forall j :: 0 <= j < |before| ==> before[j].predecessors == []) && SuccessorsForward(before) {
      forall j, k | 0 <= j < |after| && 0 <= k < |after[j].predecessors|
        ensures 0 <= after[j].predecessors[k] < j
      {
        var x := after[j].predecessors[k];
        assert x in Incoming(before, j, |before|);
        IncomingMembers(before, j, |before|, x);
        var a :| 0 <= a < |before| && before[a].id == x && j in before[a].successors;
        var m :| 0 <= m < |before[a].successors| && before[a].successors[m] == j;
      }
    }
  }
}
