/** The project model: activities, resources and the instance that holds them
    (msrcpsp_final.py, the three dataclasses). */
module Project {
  import opened ExtendedInt

  /** One activity. `earliestStart` .. `slack` are filled in by the time-bound
      passes; before that they hold the dataclass defaults (0, inf, 0, inf, 0). */
  datatype Activity = Activity(
    id: int,
    duration: int,
    successors: seq<int>,
    predecessors: seq<int>,
    skillRequirements: seq<int>,
    skillLevelRequirements: seq<int>,
    earliestStart: int,
    latestStart: Ext,
    earliestFinish: int,
    latestFinish: Ext,
    slack: Ext)

  /** A resource: per skill, whether it has it (non-zero) and at which level. */
  datatype Resource = Resource(id: int, skills: seq<int>, skillLevels: seq<int>)

  datatype ProjectInstance = ProjectInstance(
    numActivities: int,
    numResources: int,
    numSkills: int,
    numLevels: int,
    baseDeadline: int,
    levelDeadline: int,
    activities: seq<Activity>,
    resources: seq<Resource>)

  /** Python's [0] * n, empty for a negative n. */
  function Zeros(n: int): (r: seq<int>)
    ensures |r| == (if n < 0 then 0 else n)
    ensures forall k :: 0 <= k < |r| ==> r[k] == 0
  {
    if n <= 0 then [] else seq(n, _ => 0)
  }

  /** An activity as the loader creates it, with the dataclass defaults. */
  function NewActivity(id: int, duration: int, successors: seq<int>, numSkills: int): Activity
  {
    Activity(id, duration, successors, [], Zeros(numSkills), Zeros(numSkills),
             0, PosInf, 0, PosInf, Fin(0))
  }

  /** Python's sum() over a list of integers. */
  function Sum(xs: seq<int>): int
  {
    if xs == [] then 0 else Sum(xs[..|xs| - 1]) + xs[|xs| - 1]
  }

  /** The loader numbers activities by their position. */
  predicate WellIndexed(acts: seq<Activity>)
  {
    forall i :: 0 <= i < |acts| ==> acts[i].id == i
  }

  /** Resources are numbered by their position too. */
  predicate ResourcesIndexed(res: seq<Resource>)
  {
    forall i :: 0 <= i < |res| ==> res[i].id == i
  }

  /** The topological numbering the passes rely on: every in-range successor
      has a larger index than the activity naming it. */
  ghost predicate SuccessorsForward(acts: seq<Activity>)
  {
    forall i, k :: 0 <= i < |acts| && 0 <= k < |acts[i].successors| &&
      0 <= acts[i].successors[k] < |acts|
      ==> i < acts[i].successors[k]
  }

  /** Every predecessor is an activity with a smaller index. */
  ghost predicate PredecessorsBackward(acts: seq<Activity>)
  {
    forall i, k :: 0 <= i < |acts| && 0 <= k < |acts[i].predecessors| ==>
      0 <= acts[i].predecessors[k] < i
  }

  /** Every in-range successor lists the activity among its predecessors. */
  ghost predicate Linked(acts: seq<Activity>)
  {
    forall i, k :: 0 <= i < |acts| && 0 <= k < |acts[i].successors| &&
      0 <= acts[i].successors[k] < |acts|
      ==> i in acts[acts[i].successors[k]].predecessors
  }
}
