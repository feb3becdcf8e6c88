/**
 * The iterative refinement engine (`optimize_adjusted_days_simple`): passes
 * over all rows, moving a row's adjusted day to a day nearer its target when
 * one is below the capacity, until a pass moves nothing or the pass budget is
 * spent.
 */
module Refinement {
  import opened DayLoad
  import opened Worksheet

  /** A candidate day may take the row: it is the row's current day, or it is below the capacity. */
  predicate Eligible(counts: map<int, int>, maxCleanings: int, current: int, d: int) {
    d == current || Load(counts, d) < maxCleanings
  }

  /**
   * The best day for a row among the candidate days `lo..hi-1`, scanned
   * upward from `lo` with the row's current day as the initial best: the
   * eligible candidate nearest to the target, the earlier one of two equally
   * near, and the current day unless a candidate is strictly nearer.
   */
  function Relocate(counts: map<int, int>, maxCleanings: int, target: int, current: int, lo: int, hi: int): (r: int)
    decreases hi - lo
    ensures Dist(r, target) <= Dist(current, target)
    ensures r == current || (lo <= r < hi && Load(counts, r) < maxCleanings && Dist(r, target) < Dist(current, target))
    ensures forall d :: lo <= d < hi && Eligible(counts, maxCleanings, current, d) ==> Dist(r, target) <= Dist(d, target)
    ensures r != current ==>
      forall d :: lo <= d < hi && Eligible(counts, maxCleanings, current, d) && Dist(d, target) == Dist(r, target) ==> r <= d
  {
    if lo >= hi then current
    else
      var best := Relocate(counts, maxCleanings, target, current, lo, hi - 1);
      var d := hi - 1;
      if Eligible(counts, maxCleanings, current, d) && Dist(d, target) < Dist(best, target) then d else best
  }

  /** `after` is `before` with its adjusted day moved within the window and strictly nearer its target. */
  predicate MovedCloser(before: Row, after: Row, searchWindow: int) {
    && before.target.Date? && before.adjusted.Date? && after.adjusted.Date?
    && after.target == before.target
    && Dist(after.adjusted.day, before.target.day) <= searchWindow
    && Dist(after.adjusted.day, before.target.day) < Dist(before.adjusted.day, before.target.day)
  }

  /** Two moves nearer the target make one move nearer the target. */
  lemma MovedCloserTransitive(a: Row, b: Row, c: Row, searchWindow: int)
    requires MovedCloser(a, b, searchWindow) && MovedCloser(b, c, searchWindow)
    ensures MovedCloser(a, c, searchWindow)
  {
  }

  /**
   * Some day of the row's window `target ± searchWindow` is below the
   * capacity and strictly nearer the target than the row's current day.
   */
  predicate HasNearerFreeDay(row: Row, counts: map<int, int>, maxCleanings: int, searchWindow: int)
    requires row.target.Date? && row.adjusted.Date?
  {
    exists d :: row.target.day - searchWindow <= d <= row.target.day + searchWindow
      && Load(counts, d) < maxCleanings
      && Dist(d, row.target.day) < Dist(row.adjusted.day, row.target.day)
  }

  /** A row and the schedule after one row has been looked at, and whether the row moved. */
  datatype StepResult = StepResult(row: Row, counts: map<int, int>, moved: bool)

  /** One row of a pass: rows without a parsed target and current day are skipped. */
  function Step(row: Row, counts: map<int, int>, maxCleanings: int, searchWindow: int): (s: StepResult)
    ensures s.moved <==> s.row != row
    ensures !s.moved ==> s.counts == counts
    ensures s.moved ==>
      && MovedCloser(row, s.row, searchWindow)
      && Load(counts, s.row.adjusted.day) < maxCleanings
      && s.counts == counts[row.adjusted.day := Load(counts, row.adjusted.day) - 1]
                           [s.row.adjusted.day := Load(counts, s.row.adjusted.day) + 1]
    ensures row.adjusted.Date? && row.adjusted == row.target ==> !s.moved
  {
    if row.target.Date? && row.adjusted.Date? then
      var target := row.target.day;
      var current := row.adjusted.day;
      var best := Relocate(counts, maxCleanings, target, current, target - searchWindow, target + searchWindow + 1);
      if best != current then
        var decremented := counts[current := Load(counts, current) - 1];
        StepResult(Row(row.target, Date(best)), decremented[best := Load(decremented, best) + 1], true)
      else StepResult(row, counts, false)
    else StepResult(row, counts, false)
  }

  /**
   * A row with a parsed target and current day moves exactly when some day
   * of its window is below the capacity and strictly nearer its target.
   */
  lemma StepMovesIffNearerFreeDay(row: Row, counts: map<int, int>, maxCleanings: int, searchWindow: int)
    requires row.target.Date? && row.adjusted.Date?
    ensures Step(row, counts, maxCleanings, searchWindow).moved <==> HasNearerFreeDay(row, counts, maxCleanings, searchWindow)
  {
    var s := Step(row, counts, maxCleanings, searchWindow);
    if s.moved {
      var d := s.row.adjusted.day;
      assert row.target.day - searchWindow <= d <= row.target.day + searchWindow;
    }
  }

  /** The rows, the schedule and the number of moves at the end of a pass. */
  datatype PassState = PassState(rows: seq<Row>, counts: map<int, int>, moves: nat)

  /** The rest of a pass, from row `i` on. */
  function PassFrom(rows: seq<Row>, counts: map<int, int>, maxCleanings: int, searchWindow: int, i: nat): (p: PassState)
    decreases |rows| - i
  {
    if i >= |rows| then PassState(rows, counts, 0)
    else
      var s := Step(rows[i], counts, maxCleanings, searchWindow);
      var rest := PassFrom(rows[i := s.row], s.counts, maxCleanings, searchWindow, i + 1);
      PassState(rest.rows, rest.counts, rest.moves + if s.moved then 1 else 0)
  }

  /**
   * The rest of a pass changes no row before `i`, and each row from `i` on
   * either stays or moves nearer its target inside the window; the pass
   * counts a move exactly when some row changed.
   */
  lemma {:induction false} PassFromShape(rows: seq<Row>, counts: map<int, int>, maxCleanings: int, searchWindow: int, i: nat)
    decreases |rows| - i
    ensures var p := PassFrom(rows, counts, maxCleanings, searchWindow, i);
      && |p.rows| == |rows|
      && (forall j :: 0 <= j < |rows| && j < i ==> p.rows[j] == rows[j])
      && (forall j :: i <= j < |rows| ==> p.rows[j] == rows[j] || MovedCloser(rows[j], p.rows[j], searchWindow))
      && (p.moves == 0 <==> p.rows == rows)
  {
    if i < |rows| {
      var s := Step(rows[i], counts, maxCleanings, searchWindow);
      PassFromShape(rows[i := s.row], s.counts, maxCleanings, searchWindow, i + 1);
      if !s.moved {
        assert rows[i := s.row] == rows;
      }
    }
  }

  /** One pass: the schedule rebuilt from the rows, then every row looked at in order. */
  function Pass(rows: seq<Row>, maxCleanings: int, searchWindow: int): PassState {
    PassFrom(rows, Rebuild(rows), maxCleanings, searchWindow, 0)
  }

  /** The rows after refinement and the number of moves of each pass (the per-iteration report). */
  datatype Refined = Refined(rows: seq<Row>, log: seq<nat>)

  /** At most `iterations` passes, stopping after the first one that moves nothing. */
  function Optimize(rows: seq<Row>, maxCleanings: int, searchWindow: int, iterations: int): (r: Refined)
    decreases iterations
  {
    if iterations <= 0 then Refined(rows, [])
    else
      var p := Pass(rows, maxCleanings, searchWindow);
      if p.moves == 0 then Refined(p.rows, [0])
      else
        var rest := Optimize(p.rows, maxCleanings, searchWindow, iterations - 1);
        Refined(rest.rows, [p.moves] + rest.log)
  }

  /**
   * Refinement runs at most `iterations` passes and at least one when
   * `iterations` is positive; every pass but the last moved something, and
   * when fewer passes than the budget ran, the last one moved nothing.
   */
  lemma {:induction false} OptimizeTerminates(rows: seq<Row>, maxCleanings: int, searchWindow: int, iterations: int)
    decreases iterations
    ensures var r := Optimize(rows, maxCleanings, searchWindow, iterations);
      && |r.log| <= Max(iterations, 0)
      && (iterations > 0 ==> |r.log| > 0)
      && (forall k :: 0 <= k < |r.log| - 1 ==> r.log[k] > 0)
      && (|r.log| < iterations ==> r.log[|r.log| - 1] == 0)
  {
    if iterations > 0 {
      var p := Pass(rows, maxCleanings, searchWindow);
      if p.moves != 0 {
        OptimizeTerminates(p.rows, maxCleanings, searchWindow, iterations - 1);
      }
    }
  }

  /**
   * One step keeps the schedule in step with the rows: a move takes one
   * cleaning off the old day and puts one on the new day, so the total and
   * the number of dated rows are conserved.
   */
  lemma StepKeepsSync(rows: seq<Row>, counts: map<int, int>, maxCleanings: int, searchWindow: int, i: nat)
    requires i < |rows| && InSync(counts, rows)
    ensures var s := Step(rows[i], counts, maxCleanings, searchWindow);
      && InSync(s.counts, rows[i := s.row])
      && Total(s.counts) == Total(counts)
      && Dated(rows[i := s.row]) == Dated(rows)
  {
    var s := Step(rows[i], counts, maxCleanings, searchWindow);
    if s.moved {
      var oldDay := rows[i].adjusted.day;
      var newDay := s.row.adjusted.day;
      var decremented := counts[oldDay := Load(counts, oldDay) - 1];
      CountUpdate(rows, i, s.row);
      TotalUpdate(counts, oldDay, Load(counts, oldDay) - 1);
      TotalUpdate(decremented, newDay, Load(decremented, newDay) + 1);
    } else {
      assert rows[i := s.row] == rows;
    }
  }

  /** A whole pass keeps the schedule in step with the rows, conserving the total. */
  lemma {:induction false} PassFromKeepsSync(rows: seq<Row>, counts: map<int, int>, maxCleanings: int, searchWindow: int, i: nat)
    requires InSync(counts, rows)
    decreases |rows| - i
    ensures var p := PassFrom(rows, counts, maxCleanings, searchWindow, i);
      && InSync(p.counts, p.rows)
      && Total(p.counts) == Total(counts)
      && Dated(p.rows) == Dated(rows)
  {
    if i < |rows| {
      var s := Step(rows[i], counts, maxCleanings, searchWindow);
      StepKeepsSync(rows, counts, maxCleanings, searchWindow, i);
      PassFromKeepsSync(rows[i := s.row], s.counts, maxCleanings, searchWindow, i + 1);
    }
  }

  /** A pass never fills a day beyond the capacity unless that day was already beyond it. */
  lemma {:induction false} PassFromKeepsCapacity(rows: seq<Row>, counts: map<int, int>, maxCleanings: int, searchWindow: int, i: nat)
    decreases |rows| - i
    ensures var p := PassFrom(rows, counts, maxCleanings, searchWindow, i);
      forall d :: Load(p.counts, d) <= Max(Load(counts, d), maxCleanings)
  {
    if i < |rows| {
      var s := Step(rows[i], counts, maxCleanings, searchWindow);
      PassFromKeepsCapacity(rows[i := s.row], s.counts, maxCleanings, searchWindow, i + 1);
    }
  }

  /**
   * Over a whole pass: the rebuilt schedule counts every row's adjusted day,
   * no day ends beyond `max(its count before, capacity)`, and the number of
   * dated rows is unchanged.
   */
  lemma PassKeepsCapacity(rows: seq<Row>, maxCleanings: int, searchWindow: int)
    ensures var p := Pass(rows, maxCleanings, searchWindow);
      && InSync(p.counts, p.rows)
      && Dated(p.rows) == Dated(rows)
      && forall d :: Count(p.rows, d) <= Max(Count(rows, d), maxCleanings)
  {
    PassFromKeepsSync(rows, Rebuild(rows), maxCleanings, searchWindow, 0);
    PassFromKeepsCapacity(rows, Rebuild(rows), maxCleanings, searchWindow, 0);
  }

  /**
   * Every row ends where it started or nearer its target, inside the window,
   * with its target untouched; rows without a parsed target and current day never change.
   */
  lemma {:induction false} OptimizeOnlyImproves(rows: seq<Row>, maxCleanings: int, searchWindow: int, iterations: int)
    decreases iterations
    ensures var r := Optimize(rows, maxCleanings, searchWindow, iterations);
      && |r.rows| == |rows|
      && forall j :: 0 <= j < |rows| ==> r.rows[j] == rows[j] || MovedCloser(rows[j], r.rows[j], searchWindow)
  {
    if iterations > 0 {
      var p := Pass(rows, maxCleanings, searchWindow);
      PassFromShape(rows, Rebuild(rows), maxCleanings, searchWindow, 0);
      if p.moves != 0 {
        var r := Optimize(p.rows, maxCleanings, searchWindow, iterations - 1);
        OptimizeOnlyImproves(p.rows, maxCleanings, searchWindow, iterations - 1);
        forall j | 0 <= j < |rows|
          ensures r.rows[j] == rows[j] || MovedCloser(rows[j], r.rows[j], searchWindow)
        {
          if p.rows[j] != rows[j] && r.rows[j] != p.rows[j] {
            MovedCloserTransitive(rows[j], p.rows[j], r.rows[j], searchWindow);
          }
        }
      }
    }
  }

  /**
   * Refinement conserves the number of dated rows and never fills a day
   * beyond `max(its count before, capacity)`: a schedule within capacity stays within it.
   */
  lemma {:induction false} OptimizeKeepsCapacity(rows: seq<Row>, maxCleanings: int, searchWindow: int, iterations: int)
    decreases iterations
    ensures var r := Optimize(rows, maxCleanings, searchWindow, iterations);
      && Dated(r.rows) == Dated(rows)
      && forall d :: Count(r.rows, d) <= Max(Count(rows, d), maxCleanings)
  {
    if iterations > 0 {
      var p := Pass(rows, maxCleanings, searchWindow);
      PassKeepsCapacity(rows, maxCleanings, searchWindow);
      if p.moves != 0 {
        OptimizeKeepsCapacity(p.rows, maxCleanings, searchWindow, iterations - 1);
      }
    }
  }

  /**
   * When refinement stopped because a pass moved nothing, running it again
   * on its result makes exactly one pass, which moves nothing.
   */
  lemma {:induction false} OptimizeRerunIsIdle(rows: seq<Row>, maxCleanings: int, searchWindow: int, iterations: int, again: int)
    requires var r := Optimize(rows, maxCleanings, searchWindow, iterations);
      r.log != [] && r.log[|r.log| - 1] == 0
    requires again >= 1
    decreases iterations
    ensures var r := Optimize(rows, maxCleanings, searchWindow, iterations);
      Optimize(r.rows, maxCleanings, searchWindow, again) == Refined(r.rows, [0])
  {
    var p := Pass(rows, maxCleanings, searchWindow);
    PassFromShape(rows, Rebuild(rows), maxCleanings, searchWindow, 0);
    if p.moves != 0 {
      OptimizeRerunIsIdle(p.rows, maxCleanings, searchWindow, iterations - 1, again);
    }
  }

  /**
   * The rest of a pass moves nothing exactly when none of its rows with a
   * parsed target and current day has a nearer day below the capacity in
   * its window: such a row is always moved, and while nothing moves the
   * schedule stays as it was.
   */
  lemma {:induction false} PassFromIdleIff(rows: seq<Row>, counts: map<int, int>, maxCleanings: int, searchWindow: int, i: nat)
    decreases |rows| - i
    ensures PassFrom(rows, counts, maxCleanings, searchWindow, i).moves == 0 <==>
      forall j :: i <= j < |rows| && rows[j].target.Date? && rows[j].adjusted.Date? ==>
        !HasNearerFreeDay(rows[j], counts, maxCleanings, searchWindow)
  {
    if i < |rows| {
      var s := Step(rows[i], counts, maxCleanings, searchWindow);
      if rows[i].target.Date? && rows[i].adjusted.Date? {
        StepMovesIffNearerFreeDay(rows[i], counts, maxCleanings, searchWindow);
      }
      if !s.moved {
        assert rows[i := s.row] == rows;
        PassFromIdleIff(rows, counts, maxCleanings, searchWindow, i + 1);
      }
    }
  }

  /**
   * Refinement has converged: no row with a parsed target and current day
   * has a day in its window below the capacity of the rebuilt schedule and
   * strictly nearer its target.
   */
  predicate Converged(rows: seq<Row>, maxCleanings: int, searchWindow: int) {
    forall j :: 0 <= j < |rows| && rows[j].target.Date? && rows[j].adjusted.Date? ==>
      !HasNearerFreeDay(rows[j], Rebuild(rows), maxCleanings, searchWindow)
  }

  /** A pass moves nothing exactly when the rows have converged, and then it leaves them as they are. */
  lemma PassIdleIffConverged(rows: seq<Row>, maxCleanings: int, searchWindow: int)
    ensures Pass(rows, maxCleanings, searchWindow).moves == 0 <==> Converged(rows, maxCleanings, searchWindow)
    ensures Pass(rows, maxCleanings, searchWindow).moves == 0 ==> Pass(rows, maxCleanings, searchWindow).rows == rows
  {
    PassFromIdleIff(rows, Rebuild(rows), maxCleanings, searchWindow, 0);
    PassFromShape(rows, Rebuild(rows), maxCleanings, searchWindow, 0);
  }

  /**
   * When refinement stops on a pass that moved nothing (in particular when
   * it stops before the pass budget is spent), its rows have converged.
   */
  lemma {:induction false} OptimizeStopsConverged(rows: seq<Row>, maxCleanings: int, searchWindow: int, iterations: int)
    decreases iterations
    ensures var r := Optimize(rows, maxCleanings, searchWindow, iterations);
      r.log != [] && r.log[|r.log| - 1] == 0 ==> Converged(r.rows, maxCleanings, searchWindow)
  {
    if iterations > 0 {
      var p := Pass(rows, maxCleanings, searchWindow);
      PassIdleIffConverged(rows, maxCleanings, searchWindow);
      if p.moves != 0 {
        OptimizeStopsConverged(p.rows, maxCleanings, searchWindow, iterations - 1);
      }
    }
  }

  /** Converged rows are a fixed point: refinement makes one pass, moves nothing and leaves them. */
  lemma ConvergedIsFixpoint(rows: seq<Row>, maxCleanings: int, searchWindow: int, iterations: int)
    requires Converged(rows, maxCleanings, searchWindow) && iterations >= 1
    ensures Optimize(rows, maxCleanings, searchWindow, iterations) == Refined(rows, [0])
  {
    PassIdleIffConverged(rows, maxCleanings, searchWindow);
  }

  /** The schedule rebuilt from every row's adjusted cell (the start of each iteration). */
  method RebuildSchedule(rows: array<Row>) returns (schedule: CleaningSchedule)
    ensures fresh(schedule)
    ensures schedule.counts == Rebuild(rows[..])
  {
    schedule := new CleaningSchedule();
    var i := 0;
    while i < rows.Length
      invariant 0 <= i <= rows.Length
      invariant schedule.counts == Rebuild(rows[..i])
    {
      assert rows[..i + 1][..i] == rows[..i];
      if rows[i].adjusted.Date? {
        schedule.Increment(rows[i].adjusted.day);
      }
      i := i + 1;
    }
    assert rows[..rows.Length] == rows[..];
  }

  /** The window scan of one row: offsets `-searchWindow..searchWindow` around the target, upward. */
  method BestCandidate(schedule: CleaningSchedule, maxCleanings: int, target: int, current: int, searchWindow: int)
    returns (best: int)
    ensures best == Relocate(schedule.counts, maxCleanings, target, current, target - searchWindow, target + searchWindow + 1)
  {
    best := current;
    var bestDeviation := Dist(current, target);
    var offset := -searchWindow;
    while offset <= searchWindow
      invariant -searchWindow <= offset <= Max(searchWindow + 1, -searchWindow)
      invariant best == Relocate(schedule.counts, maxCleanings, target, current, target - searchWindow, target + offset)
      invariant bestDeviation == Dist(best, target)
    {
      var candidate := target + offset;
      var count := schedule.Get(candidate);
      if candidate == current || count < maxCleanings {
        var candidateDeviation := Dist(candidate, target);
        if candidateDeviation < bestDeviation {
          best := candidate;
          bestDeviation := candidateDeviation;
        }
      }
      offset := offset + 1;
    }
  }

  /** The body of the row loop: moves row `i` to its best candidate when that is strictly nearer its target. */
  method ImproveRow(rows: array<Row>, schedule: CleaningSchedule, i: nat, maxCleanings: int, searchWindow: int)
    returns (moved: bool)
    requires i < rows.Length
    requires rows[i].adjusted.Date? ==> rows[i].adjusted.day in schedule.counts
    modifies rows, schedule
    ensures var step := Step(old(rows[i]), old(schedule.counts), maxCleanings, searchWindow);
      && rows[..] == old(rows[..])[i := step.row]
      && schedule.counts == step.counts
      && moved == step.moved
  {
    moved := false;
    var row := rows[i];
    ghost var step := Step(row, schedule.counts, maxCleanings, searchWindow);
    if row.target.Date? && row.adjusted.Date? {
      var target := row.target.day;
      var current := row.adjusted.day;
      var best := BestCandidate(schedule, maxCleanings, target, current, searchWindow);
      if best != current {
        assert step.row == Row(row.target, Date(best));
        schedule.Decrement(current);
        schedule.Increment(best);
        rows[i] := Row(row.target, Date(best));
        moved := true;
      }
    }
  }

  /**
   * The rest of a pass, in terms of the step at row `i`: one unfolding of
   * `PassFrom`, stated apart so that `OptimizationPass` stays cheap to verify.
   */
  lemma PassFromUnfold(rows: seq<Row>, counts: map<int, int>, maxCleanings: int, searchWindow: int, i: nat)
    requires i < |rows|
    ensures var s := Step(rows[i], counts, maxCleanings, searchWindow);
      var rest := PassFrom(rows[i := s.row], s.counts, maxCleanings, searchWindow, i + 1);
      PassFrom(rows, counts, maxCleanings, searchWindow, i) == PassState(rest.rows, rest.counts, rest.moves + if s.moved then 1 else 0)
  {
  }

  /** One iteration: rebuild the schedule, then try to move every row nearer its target. */
  method OptimizationPass(rows: array<Row>, maxCleanings: int, searchWindow: int) returns (improvements: nat)
    modifies rows
    ensures rows[..] == Pass(old(rows[..]), maxCleanings, searchWindow).rows
    ensures improvements == Pass(old(rows[..]), maxCleanings, searchWindow).moves
  {
    var schedule := RebuildSchedule(rows);
    ghost var final := Pass(rows[..], maxCleanings, searchWindow);
    improvements := 0;
    var i := 0;
    while i < rows.Length
      invariant 0 <= i <= rows.Length
      invariant InSync(schedule.counts, rows[..])
      invariant PassFrom(rows[..], schedule.counts, maxCleanings, searchWindow, i).rows == final.rows
      invariant PassFrom(rows[..], schedule.counts, maxCleanings, searchWindow, i).moves + improvements == final.moves
    {
      ghost var before := rows[..];
      ghost var countsBefore := schedule.counts;
      ghost var step := Step(before[i], countsBefore, maxCleanings, searchWindow);
      PassFromUnfold(before, countsBefore, maxCleanings, searchWindow, i);
      StepKeepsSync(before, countsBefore, maxCleanings, searchWindow, i);
      if before[i].adjusted.Date? {
        CountOwnDay(before, i);
      }
      var moved := ImproveRow(rows, schedule, i, maxCleanings, searchWindow);
      if moved {
        improvements := improvements + 1;
      }
      i := i + 1;
    }
  }

  /**
   * One iteration of refinement, in terms of the pass it makes: one unfolding
   * of `Optimize`, stated apart so that `OptimizeAdjustedDaysSimple` stays
   * cheap to verify.
   */
  lemma OptimizeUnfold(rows: seq<Row>, maxCleanings: int, searchWindow: int, iterations: int)
    requires iterations > 0
    ensures var p := Pass(rows, maxCleanings, searchWindow);
      Optimize(rows, maxCleanings, searchWindow, iterations)
        == if p.moves == 0 then Refined(p.rows, [0])
           else Refined(Optimize(p.rows, maxCleanings, searchWindow, iterations - 1).rows,
                        [p.moves] + Optimize(p.rows, maxCleanings, searchWindow, iterations - 1).log)
  {
  }

  /**
   * `optimize_adjusted_days_simple`: at most `iterations` passes over the
   * rows, stopping after the first pass that moves nothing; `log` holds the
   * number of moves of each pass, as the source reports them.
   */
  method OptimizeAdjustedDaysSimple(rows: array<Row>, maxCleanings: int, iterations: int, searchWindow: int)
    returns (log: seq<nat>)
    modifies rows
    ensures Refined(rows[..], log) == Optimize(old(rows[..]), maxCleanings, searchWindow, iterations)
  {
    ghost var result := Optimize(rows[..], maxCleanings, searchWindow, iterations);
    ghost var remaining := result;
    log := [];
    var it := 0;
    var done := false;
    while it < iterations && !done
      invariant 0 <= it
      invariant done ==> result == Refined(rows[..], log)
      invariant !done ==> remaining == Optimize(rows[..], maxCleanings, searchWindow, iterations - it)
      invariant !done ==> result == Refined(remaining.rows, log + remaining.log)
      decreases iterations - it
    {
      ghost var before := rows[..];
      OptimizeUnfold(before, maxCleanings, searchWindow, iterations - it);
      var improvements := OptimizationPass(rows, maxCleanings, searchWindow);
      if improvements == 0 {
        assert remaining == Refined(rows[..], [0]);
        done := true;
      } else {
        ghost var next := Optimize(rows[..], maxCleanings, searchWindow, iterations - it - 1);
        assert remaining == Refined(next.rows, [improvements] + next.log);
        assert log + ([improvements] + next.log) == (log + [improvements]) + next.log;
        remaining := next;
      }
      log := log + [improvements];
      it := it + 1;
    }
  }
}
