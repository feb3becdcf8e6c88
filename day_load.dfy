/**
 * The day-load tracker: how many BR-cleanings are booked on each calendar day.
 * Calendar days are day numbers; the source keys its dictionary by the
 * 'DD.MM.YYYY' image of a date, which is one-to-one at day granularity.
 */
module DayLoad {

  /** Number of cleanings on day `d`; a day missing from the map has none (`dict.get(day, 0)`). */
  function Load(counts: map<int, int>, d: int): int {
    if d in counts then counts[d] else 0
  }

  /** Distance in days between two days: the deviation of an assignment from its target. */
  function Dist(a: int, b: int): nat {
    if a >= b then a - b else b - a
  }

  /** The larger of two numbers. */
  function Max(a: int, b: int): int {
    if a >= b then a else b
  }

  /** Sum of all counts in the map. */
  ghost function Total(counts: map<int, int>): int
    decreases |counts|
  {
    if counts == map[] then 0
    else
      var d := SomeDay(counts);
      counts[d] + Total(counts - {d})
  }

  /** Some day that has an entry in a non-empty map. */
  ghost function SomeDay(counts: map<int, int>): (d: int)
    requires counts != map[]
    ensures d in counts
  {
    assert (forall k :: k !in counts.Keys) ==> counts.Keys == {};
    assert counts.Keys == {} ==> counts == map[];
    var k :| k in counts.Keys; k
  }

  /** The total does not depend on which entry is taken out first. */
  lemma {:induction false} TotalRemove(counts: map<int, int>, d: int)
    requires d in counts
    ensures Total(counts) == counts[d] + Total(counts - {d})
    decreases |counts|
  {
    var e := SomeDay(counts);
    if e != d {
      TotalRemove(counts - {e}, d);
      TotalRemove(counts - {d}, e);
      assert counts - {e} - {d} == counts - {d} - {e};
    }
  }

  /** Setting one day's count changes the total by exactly the difference. */
  lemma TotalUpdate(counts: map<int, int>, d: int, n: int)
    ensures Total(counts[d := n]) == Total(counts) - Load(counts, d) + n
  {
    var updated := counts[d := n];
    TotalRemove(updated, d);
    if d in counts {
      TotalRemove(counts, d);
      assert updated - {d} == counts - {d};
    } else {
      assert updated - {d} == counts;
    }
  }

  /**
   * The `cleaning_schedule` dictionary, which the assignment engines
   * update in place.
   */
  class CleaningSchedule {
    var counts: map<int, int>

    /** An empty schedule (`cleaning_schedule = {}`). */
    constructor ()
      ensures counts == map[]
    {
      counts := map[];
    }

    /** `cleaning_schedule.get(day, 0)` */
    function Get(d: int): int
      reads this
    {
      Load(counts, d)
    }

    /** `cleaning_schedule[day] = n` */
    method Set(d: int, n: int)
      modifies this
      ensures counts == old(counts)[d := n]
    {
      counts := counts[d := n];
    }

    /** `cleaning_schedule[day] = cleaning_schedule.get(day, 0) + 1` */
    method Increment(d: int)
      modifies this
      ensures counts == old(counts)[d := Load(old(counts), d) + 1]
      ensures Load(counts, d) == Load(old(counts), d) + 1
      ensures forall e :: e != d ==> Load(counts, e) == Load(old(counts), e)
    {
      counts := counts[d := Load(counts, d) + 1];
    }

    /** `cleaning_schedule[day] -= 1`: the day must already have an entry (a KeyError otherwise). */
    method Decrement(d: int)
      requires d in counts
      modifies this
      ensures counts == old(counts)[d := old(counts)[d] - 1]
      ensures Load(counts, d) == Load(old(counts), d) - 1
      ensures forall e :: e != d ==> Load(counts, e) == Load(old(counts), e)
    {
      counts := counts[d := counts[d] - 1];
    }
  }
}
