/** Schedules as both list schedulers build them: entries
    (activity id, start, end, resource ids) in commit order, the makespan,
    and the resource-exclusivity invariant that committing an entry whose
    resources are all free keeps. */
module Schedules {
  import opened Intervals

  datatype Entry = Entry(activityId: int, start: int, end: int, resources: seq<int>)

  function EntryIds(s: seq<Entry>): (r: seq<int>)
    ensures |r| == |s| && forall k :: 0 <= k < |s| ==> r[k] == s[k].activityId
  {
    seq(|s|, k requires 0 <= k < |s| => s[k].activityId)
  }

  lemma EntryIdsSnoc(s: seq<Entry>, e: Entry)
    ensures EntryIds(s + [e]) == EntryIds(s) + [e.activityId]
  {
  }

  /** max(end for each entry) if there are entries, else 0. */
  function MaxEnd(s: seq<Entry>): int
  {
    if s == [] then 0
    else if |s| == 1 then s[0].end
    else
      var m := MaxEnd(s[..|s| - 1]);
      if s[|s| - 1].end > m then s[|s| - 1].end else m
  }

  /** The makespan is the latest end: no entry ends later, and some entry
      ends exactly then (0 for an empty schedule). */
  lemma {:induction false} MaxEndIsMax(s: seq<Entry>)
    ensures forall k :: 0 <= k < |s| ==> s[k].end <= MaxEnd(s)
    ensures s == [] ==> MaxEnd(s) == 0
    ensures s != [] ==> exists k :: 0 <= k < |s| && s[k].end == MaxEnd(s)
  {
    if |s| > 1 {
      MaxEndIsMax(s[..|s| - 1]);
      var m := MaxEnd(s[..|s| - 1]);
      var k :| 0 <= k < |s| - 1 && s[..|s| - 1][k].end == m;
      assert s[k].end == m;
    }
  }

  /** Two entries that share a resource do not overlap in time (the same
      half-open test the matchers apply). */
  predicate Apart(e1: Entry, e2: Entry)
  {
    forall x :: x in e1.resources && x in e2.resources ==> !Overlaps(Interval(e1.start, e1.end), e2.start, e2.end)
  }

  /** No resource is in two entries that overlap in time. */
  ghost predicate Exclusive(s: seq<Entry>)
  {
    forall j, k :: 0 <= j < k < |s| ==> Apart(s[j], s[k])
  }

  /** The entry's interval is in the calendar of each of its resources. */
  predicate RecordedEntry(e: Entry, cal: Calendar)
  {
    forall x :: x in e.resources ==> Interval(e.start, e.end) in Busy(cal, x)
  }

  /** Every committed entry is recorded in the calendar. */
  ghost predicate Recorded(s: seq<Entry>, cal: Calendar)
  {
    forall k :: 0 <= k < |s| ==> RecordedEntry(s[k], cal)
  }

  lemma CountPositive(ids: seq<int>, x: int)
    requires x in ids
    ensures Count(ids, x) > 0
  {
    if ids[|ids| - 1] != x {
      var init := ids[..|ids| - 1];
      assert ids == init + [ids[|ids| - 1]];
      assert x in init;
      CountPositive(init, x);
    }
  }

  /** Committing an entry whose resources are all free over its interval,
      and recording it, keeps the schedule exclusive and recorded. */
  lemma CommitKeepsExclusive(s: seq<Entry>, cal: Calendar, e: Entry, cal2: Calendar)
    requires Exclusive(s) && Recorded(s, cal)
    requires forall x :: x in e.resources ==> TimeFree(cal, x, e.start, e.end)
    requires Appended(cal, cal2, Interval(e.start, e.end), e.resources)
    ensures Exclusive(s + [e]) && Recorded(s + [e], cal2)
  {
    var s2 := s + [e];
    forall j, k | 0 <= j < k < |s2| ensures Apart(s2[j], s2[k]) {
      if k == |s| {
        forall x | x in s[j].resources && x in e.resources
          ensures !Overlaps(Interval(s[j].start, s[j].end), e.start, e.end)
        {
          var iv := Interval(s[j].start, s[j].end);
          assert RecordedEntry(s[j], cal);
          var m :| 0 <= m < |Busy(cal, x)| && Busy(cal, x)[m] == iv;
        }
      }
    }
    forall k | 0 <= k < |s2| ensures RecordedEntry(s2[k], cal2) {
      if k == |s| {
        forall x | x in e.resources ensures Interval(e.start, e.end) in Busy(cal2, x) {
          CountPositive(e.resources, x);
          var rep := Repeat(Interval(e.start, e.end), Count(e.resources, x));
          assert rep[0] in rep;
        }
      } else {
        assert RecordedEntry(s[k], cal);
        forall x | x in s[k].resources ensures Interval(s[k].start, s[k].end) in Busy(cal2, x) {
          assert Interval(s[k].start, s[k].end) in Busy(cal, x);
        }
      }
    }
  }
}
