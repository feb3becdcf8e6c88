/**
 * Worked runs of the refinement engine on two rows with a capacity of one
 * cleaning per day and a search window of one day.
 */
module RefinementExamples {
  import opened Worksheet
  import opened Refinement

  /**
   * First pass: the first row (target day 0, on day 1) cannot take day 0,
   * which the second row holds; the second row (target day 2, on day 0) moves to day 2.
   */
  lemma FirstPassExample()
    ensures var p := Pass([Row(Date(0), Date(1)), Row(Date(2), Date(0))], 1, 1);
      p.rows == [Row(Date(0), Date(1)), Row(Date(2), Date(2))] && p.moves == 1
  {
    var rows := [Row(Date(0), Date(1)), Row(Date(2), Date(0))];
    var next := [Row(Date(0), Date(1)), Row(Date(2), Date(2))];
    var counts := Rebuild(rows);
    assert rows[..1] == [Row(Date(0), Date(1))] && rows[..1][..0] == [];
    assert Rebuild(rows[..1]) == map[1 := 1];
    assert counts == map[1 := 1, 0 := 1];
    assert Relocate(counts, 1, 0, 1, -1, 0) == 1;
    assert Relocate(counts, 1, 0, 1, -1, 1) == 1;
    assert Relocate(counts, 1, 0, 1, -1, 2) == 1;
    var s0 := Step(rows[0], counts, 1, 1);
    assert s0 == StepResult(rows[0], counts, false);
    assert rows[0 := s0.row] == rows;
    assert Relocate(counts, 1, 2, 0, 1, 3) == 2;
    assert Relocate(counts, 1, 2, 0, 1, 4) == 2;
    var s1 := Step(rows[1], counts, 1, 1);
    assert s1.row == Row(Date(2), Date(2)) && s1.moved;
    assert rows[1 := s1.row] == next;
    assert PassFrom(next, s1.counts, 1, 1, 2) == PassState(next, s1.counts, 0);
    assert PassFrom(rows, counts, 1, 1, 1) == PassState(next, s1.counts, 1);
    assert PassFrom(rows, counts, 1, 1, 0) == PassState(next, s1.counts, 1);
  }

  /** Second pass: day 0 is now free and the first row moves onto its target. */
  lemma SecondPassExample()
    ensures var p := Pass([Row(Date(0), Date(1)), Row(Date(2), Date(2))], 1, 1);
      p.rows == [Row(Date(0), Date(0)), Row(Date(2), Date(2))] && p.moves == 1
  {
    var next := [Row(Date(0), Date(1)), Row(Date(2), Date(2))];
    var last := [Row(Date(0), Date(0)), Row(Date(2), Date(2))];
    var counts := Rebuild(next);
    assert next[..1] == [Row(Date(0), Date(1))] && next[..1][..0] == [];
    assert Rebuild(next[..1]) == map[1 := 1];
    assert counts == map[1 := 1, 2 := 1];
    assert Relocate(counts, 1, 0, 1, -1, 1) == 0;
    assert Relocate(counts, 1, 0, 1, -1, 2) == 0;
    var t0 := Step(next[0], counts, 1, 1);
    assert t0.row == Row(Date(0), Date(0)) && t0.moved;
    assert next[0 := t0.row] == last;
    var t1 := Step(last[1], t0.counts, 1, 1);
    assert !t1.moved;
    assert last[1 := t1.row] == last;
    assert PassFrom(last, t1.counts, 1, 1, 2) == PassState(last, t1.counts, 0);
    assert PassFrom(last, t0.counts, 1, 1, 1) == PassState(last, t1.counts, 0);
    assert PassFrom(next, counts, 1, 1, 0) == PassState(last, t1.counts, 1);
  }

  /**
   * With a budget of one pass, a second run of the refinement on the result
   * of the first still moves a row: a run that spent its budget need not have
   * converged, unlike one that stopped on a pass that moved nothing.
   */
  lemma SecondRunStillMoves()
    ensures var rows := [Row(Date(0), Date(1)), Row(Date(2), Date(0))];
      var first := Optimize(rows, 1, 1, 1);
      && first == Refined([Row(Date(0), Date(1)), Row(Date(2), Date(2))], [1])
      && Optimize(first.rows, 1, 1, 1) == Refined([Row(Date(0), Date(0)), Row(Date(2), Date(2))], [1])
  {
    FirstPassExample();
    SecondPassExample();
  }
}
