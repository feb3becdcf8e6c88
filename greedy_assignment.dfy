/**
 * The greedy assignment engine (`adjust_br_cleaning_day`): picks the day on
 * which one more BR-cleaning is booked, in the window of offsets -7..6 around
 * the target day (`range(-7, 7)`, one day shorter after the target than before).
 */
module GreedyAssignment {
  import opened Wrappers
  import opened DayLoad

  /** First day of the window, relative to the target. */
  const WindowStart: int := -7
  /** One past the last day of the window, relative to the target. */
  const WindowEnd: int := 7

  /** The day chosen and the schedule after the choice. */
  datatype Assignment = Assignment(day: int, counts: map<int, int>)

  /** Some day of the window has no cleaning yet. */
  predicate HasFreeDay(counts: map<int, int>, target: int) {
    exists d :: target + WindowStart <= d < target + WindowEnd && Load(counts, d) == 0
  }

  /** Some day of the window is below the capacity. */
  predicate HasDayUnderCap(counts: map<int, int>, target: int, maxCleanings: int) {
    exists d :: target + WindowStart <= d < target + WindowEnd && Load(counts, d) < maxCleanings
  }

  /** Phase 1: the first day of `lo..hi-1`, scanning upward, that has no cleaning. */
  function FirstFree(counts: map<int, int>, lo: int, hi: int): (r: Option<int>)
    decreases hi - lo
    ensures r.Some? ==>
      && lo <= r.value < hi && Load(counts, r.value) == 0
      && forall d :: lo <= d < r.value ==> Load(counts, d) != 0
    ensures r.None? ==> forall d :: lo <= d < hi ==> Load(counts, d) != 0
  {
    if lo >= hi then None
    else if Load(counts, lo) == 0 then Some(lo)
    else FirstFree(counts, lo + 1, hi)
  }

  /**
   * Phase 2: the day of `lo..hi-1` below the capacity that is nearest to the
   * target; of two equally near days the earlier one, which the upward scan
   * meets first and the strict comparison keeps.
   */
  function NearestUnderCap(counts: map<int, int>, maxCleanings: int, target: int, lo: int, hi: int): (r: Option<int>)
    decreases hi - lo
    ensures r.Some? ==>
      && lo <= r.value < hi && Load(counts, r.value) < maxCleanings
      && forall d :: lo <= d < hi && Load(counts, d) < maxCleanings ==>
           Dist(r.value, target) < Dist(d, target) || (Dist(r.value, target) == Dist(d, target) && r.value <= d)
    ensures r.None? ==> forall d :: lo <= d < hi ==> Load(counts, d) >= maxCleanings
  {
    if lo >= hi then None
    else
      var best := NearestUnderCap(counts, maxCleanings, target, lo, hi - 1);
      var d := hi - 1;
      if Load(counts, d) < maxCleanings && (best.None? || Dist(d, target) < Dist(best.value, target)) then Some(d)
      else best
  }

  /** What `adjust_br_cleaning_day(target, counts, maxCleanings)` returns and leaves in the schedule. */
  function Greedy(counts: map<int, int>, target: int, maxCleanings: int): (a: Assignment)
    // Phase 1: the first free day of the window, whose count becomes 1.
    ensures HasFreeDay(counts, target) ==>
      && target + WindowStart <= a.day < target + WindowEnd
      && Load(counts, a.day) == 0
      && (forall d :: target + WindowStart <= d < a.day ==> Load(counts, d) != 0)
      && a.counts == counts[a.day := 1]
    // Phase 2: the nearest day below capacity, earlier day on a tie, one more cleaning on it.
    ensures !HasFreeDay(counts, target) && HasDayUnderCap(counts, target, maxCleanings) ==>
      && target + WindowStart <= a.day < target + WindowEnd
      && Load(counts, a.day) < maxCleanings
      && (forall d :: target + WindowStart <= d < target + WindowEnd && Load(counts, d) < maxCleanings ==>
            Dist(a.day, target) < Dist(d, target) || (Dist(a.day, target) == Dist(d, target) && a.day <= d))
      && a.counts == counts[a.day := Load(counts, a.day) + 1]
    // Fallback: the target itself, schedule untouched.
    ensures !HasFreeDay(counts, target) && !HasDayUnderCap(counts, target, maxCleanings) ==>
      a == Assignment(target, counts)
  {
    match FirstFree(counts, target + WindowStart, target + WindowEnd)
    case Some(d) => Assignment(d, counts[d := 1])
    case None =>
      match NearestUnderCap(counts, maxCleanings, target, target + WindowStart, target + WindowEnd)
      case Some(d) => Assignment(d, counts[d := Load(counts, d) + 1])
      case None => Assignment(target, counts)
  }

  /** The schedule is left as it was exactly in the fallback case. */
  lemma GreedyChangesScheduleUnlessFallback(counts: map<int, int>, target: int, maxCleanings: int)
    ensures var a := Greedy(counts, target, maxCleanings);
      a.counts == counts <==> !HasFreeDay(counts, target) && !HasDayUnderCap(counts, target, maxCleanings)
  {
    var a := Greedy(counts, target, maxCleanings);
    if HasFreeDay(counts, target) || HasDayUnderCap(counts, target, maxCleanings) {
      assert Load(a.counts, a.day) != Load(counts, a.day);
    }
  }

  /** One cleaning more in all, except in the fallback case, which books none. */
  lemma GreedyTotal(counts: map<int, int>, target: int, maxCleanings: int)
    ensures var a := Greedy(counts, target, maxCleanings);
      Total(a.counts) == Total(counts) + (if a.counts == counts then 0 else 1)
  {
    var a := Greedy(counts, target, maxCleanings);
    GreedyChangesScheduleUnlessFallback(counts, target, maxCleanings);
    if HasFreeDay(counts, target) {
      TotalUpdate(counts, a.day, 1);
    } else if HasDayUnderCap(counts, target, maxCleanings) {
      TotalUpdate(counts, a.day, Load(counts, a.day) + 1);
    }
  }

  /**
   * With a capacity of at least one, the assignment never puts a day over the
   * capacity that was not already over it, and the fallback happens exactly
   * when every day of the window is at or above the capacity.
   */
  lemma GreedyKeepsCapacity(counts: map<int, int>, target: int, maxCleanings: int)
    requires maxCleanings >= 1
    ensures var a := Greedy(counts, target, maxCleanings);
      forall d :: Load(a.counts, d) <= Max(Load(counts, d), maxCleanings)
    ensures Greedy(counts, target, maxCleanings) == Assignment(target, counts) <==>
      forall d :: target + WindowStart <= d < target + WindowEnd ==> Load(counts, d) >= maxCleanings
  {
    GreedyChangesScheduleUnlessFallback(counts, target, maxCleanings);
    if HasFreeDay(counts, target) {
      var d :| target + WindowStart <= d < target + WindowEnd && Load(counts, d) == 0;
      assert Load(counts, d) < maxCleanings;
    }
  }

  /** On an empty schedule the first day of the window, a week before the target, is taken. */
  lemma GreedyOnEmptySchedule(target: int, maxCleanings: int)
    ensures Greedy(map[], target, maxCleanings) == Assignment(target - 7, map[target - 7 := 1])
  {
  }

  /**
   * When no day of the window is free and the only days below the capacity
   * are two days before and two days after the target, the earlier one wins.
   */
  lemma GreedyTieGoesToEarlierDay(counts: map<int, int>, target: int)
    requires forall d :: target + WindowStart <= d < target + WindowEnd ==>
      Load(counts, d) == if d == target - 2 || d == target + 2 then 3 else 5
    ensures Greedy(counts, target, 5) == Assignment(target - 2, counts[target - 2 := 4])
  {
    assert Load(counts, target - 2) == 3;
    assert !HasFreeDay(counts, target);
    assert HasDayUnderCap(counts, target, 5);
  }

  /** `adjust_br_cleaning_day`: books one cleaning on the chosen day of `schedule` and returns that day. */
  method AdjustBrCleaningDay(target: int, schedule: CleaningSchedule, maxCleanings: int) returns (day: int)
    modifies schedule
    ensures Assignment(day, schedule.counts) == Greedy(old(schedule.counts), target, maxCleanings)
  {
    // Step 1: the first day of the window without any cleaning.
    var d := target + WindowStart;
    while d < target + WindowEnd
      invariant target + WindowStart <= d <= target + WindowEnd
      invariant schedule.counts == old(schedule.counts)
      invariant forall e :: target + WindowStart <= e < d ==> Load(schedule.counts, e) != 0
    {
      if schedule.Get(d) == 0 {
        schedule.Set(d, 1);
        return d;
      }
      d := d + 1;
    }

    // Step 2: the nearest day below the capacity.
    var best: Option<int> := None;
    d := target + WindowStart;
    while d < target + WindowEnd
      invariant target + WindowStart <= d <= target + WindowEnd
      invariant best == NearestUnderCap(schedule.counts, maxCleanings, target, target + WindowStart, d)
    {
      if schedule.Get(d) < maxCleanings && (best.None? || Dist(d, target) < Dist(best.value, target)) {
        best := Some(d);
      }
      d := d + 1;
    }

    if best.Some? {
      schedule.Increment(best.value);
      return best.value;
    }
    return target;
  }
}
