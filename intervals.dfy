/** The resource calendar both schedulers keep: for each resource id, the
    half-open intervals [start, end) it is busy (a defaultdict(list) in the
    source), and the availability test the matchers apply to it. */
module Intervals {

  datatype Interval = Interval(start: int, end: int)

  type Calendar = map<int, seq<Interval>>

  /** resource_schedule.get(r, []). */
  function Busy(cal: Calendar, r: int): seq<Interval>
  {
    if r in cal then cal[r] else []
  }

  /** [s, e) meets the recorded interval `iv`. */
  predicate Overlaps(iv: Interval, s: int, e: int)
  {
    !(e <= iv.start || s >= iv.end)
  }

  predicate FreeIn(ivs: seq<Interval>, s: int, e: int)
  {
    forall k :: 0 <= k < |ivs| ==> !Overlaps(ivs[k], s, e)
  }

  predicate TimeFree(cal: Calendar, r: int, s: int, e: int)
  {
    FreeIn(Busy(cal, r), s, e)
  }

  /** The availability loop: stops at the first overlapping interval. */
  method IsTimeFree(cal: Calendar, r: int, s: int, e: int) returns (free: bool)
    ensures free <==> forall k :: 0 <= k < |Busy(cal, r)| ==>
      e <= Busy(cal, r)[k].start || s >= Busy(cal, r)[k].end
  {
    var ivs := if r in cal then cal[r] else [];
    assert ivs == Busy(cal, r);
    free := true;
    for k := 0 to |ivs|
      invariant free <==> forall m :: 0 <= m < k ==> e <= ivs[m].start || s >= ivs[m].end
    {
      if !(e <= ivs[k].start || s >= ivs[k].end) {
        return false;
      }
    }
  }

  /** The calendar after appending `iv` to the busy list of each resource
      in `ids`, in order. */
  function Record(cal: Calendar, ids: seq<int>, iv: Interval): Calendar
  {
    if ids == [] then cal
    else
      var prev := Record(cal, ids[..|ids| - 1], iv);
      var x := ids[|ids| - 1];
      prev[x := Busy(prev, x) + [iv]]
  }

  /** Recording appends `iv` once per occurrence of a resource in `ids` and
      leaves every other busy list as it was. */
  lemma {:induction false} RecordAppended(cal: Calendar, ids: seq<int>, iv: Interval)
    ensures Appended(cal, Record(cal, ids, iv), iv, ids)
  {
    if ids != [] {
      var init := ids[..|ids| - 1];
      var x := ids[|ids| - 1];
      RecordAppended(cal, init, iv);
      forall y ensures Busy(Record(cal, ids, iv), y) == Busy(cal, y) + Repeat(iv, Count(ids, y)) {
        assert Count(ids, y) == Count(init, y) + (if x == y then 1 else 0);
        if y == x {
          assert Repeat(iv, Count(ids, y)) == Repeat(iv, Count(init, y)) + [iv];
        }
      }
    }
  }

  /** Appends [s, e) to the busy list of every resource in `ids`, in order
      (once per occurrence). */
  method RecordBusy(cal: Calendar, ids: seq<int>, s: int, e: int) returns (r: Calendar)
    ensures r == Record(cal, ids, Interval(s, e))
  {
    r := cal;
    for k := 0 to |ids|
      invariant r == Record(cal, ids[..k], Interval(s, e))
    {
      var x := ids[k];
      assert ids[..k + 1][..k] == ids[..k];
      r := r[x := (if x in r then r[x] else []) + [Interval(s, e)]];
    }
    assert ids[..|ids|] == ids;
  }

  /** `cal2` is `cal` with `iv` appended to the busy list of each resource
      in `ids`, once per occurrence, and nothing else changed. */
  ghost predicate Appended(cal: Calendar, cal2: Calendar, iv: Interval, ids: seq<int>)
  {
    forall x :: Busy(cal2, x) == Busy(cal, x) + Repeat(iv, Count(ids, x))
  }

  /** How often `x` occurs in `ids`. */
  function Count(ids: seq<int>, x: int): nat
  {
    if ids == [] then 0 else Count(ids[..|ids| - 1], x) + (if ids[|ids| - 1] == x then 1 else 0)
  }

  function Repeat(iv: Interval, n: nat): (r: seq<Interval>)
    ensures |r| == n && forall k :: 0 <= k < n ==> r[k] == iv
  {
    if n == 0 then [] else Repeat(iv, n - 1) + [iv]
  }
}
