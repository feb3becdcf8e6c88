/**
 * The rows of the 'BR-cleanings' worksheet, as far as the assignment engines
 * read them: the target BR-cleaning day (column I) and the load-adjusted
 * BR-cleaning day (column K).
 */
module Worksheet {
  import opened DayLoad

  /**
   * A cell holding a day: empty (`None`), a date (a date value or a
   * 'DD.MM.YYYY' text), or a value that does not parse as a date, such as the
   * text "no BR". In a target cell `Unparseable` stands only for text: other
   * values there stop the refinement with an error, which is not modelled.
   */
  datatype Cell = Empty | Date(day: int) | Unparseable

  /** One booking row. */
  datatype Row = Row(target: Cell, adjusted: Cell)

  /** Number of rows whose adjusted day is `d`. */
  function Count(rows: seq<Row>, d: int): nat {
    if rows == [] then 0
    else Count(rows[..|rows| - 1], d) + (if rows[|rows| - 1].adjusted == Date(d) then 1 else 0)
  }

  /** Number of rows whose adjusted cell holds a date. */
  function Dated(rows: seq<Row>): nat {
    if rows == [] then 0
    else Dated(rows[..|rows| - 1]) + (if rows[|rows| - 1].adjusted.Date? then 1 else 0)
  }

  /** The schedule agrees with the rows: every day's count is the number of rows on it. */
  ghost predicate InSync(counts: map<int, int>, rows: seq<Row>) {
    forall d :: Load(counts, d) == Count(rows, d)
  }

  /**
   * The schedule rebuilt at the start of a refinement pass: one cleaning per
   * row, on the row's adjusted day, whether or not the row has a target.
   */
  function Rebuild(rows: seq<Row>): (counts: map<int, int>)
    ensures InSync(counts, rows)
  {
    if rows == [] then map[]
    else
      var counts := Rebuild(rows[..|rows| - 1]);
      var last := rows[|rows| - 1];
      if last.adjusted.Date? then counts[last.adjusted.day := Load(counts, last.adjusted.day) + 1]
      else counts
  }

  /** The rebuilt schedule holds one cleaning per dated row in all. */
  lemma {:induction false} RebuildTotal(rows: seq<Row>)
    ensures Total(Rebuild(rows)) == Dated(rows)
  {
    if rows != [] {
      var init := rows[..|rows| - 1];
      RebuildTotal(init);
      var last := rows[|rows| - 1];
      if last.adjusted.Date? {
        TotalUpdate(Rebuild(init), last.adjusted.day, Load(Rebuild(init), last.adjusted.day) + 1);
      }
    }
  }

  /** Replacing one row moves that row's contribution from its old day to its new one. */
  lemma {:induction false} CountUpdate(rows: seq<Row>, i: nat, row: Row)
    requires i < |rows|
    ensures forall d ::
      Count(rows[i := row], d) ==
      Count(rows, d) - (if rows[i].adjusted == Date(d) then 1 else 0) + (if row.adjusted == Date(d) then 1 else 0)
    ensures Dated(rows[i := row]) ==
      Dated(rows) - (if rows[i].adjusted.Date? then 1 else 0) + (if row.adjusted.Date? then 1 else 0)
  {
    var n := |rows|;
    var updated := rows[i := row];
    if i == n - 1 {
      assert updated[..n - 1] == rows[..n - 1];
    } else {
      CountUpdate(rows[..n - 1], i, row);
      assert updated[..n - 1] == rows[..n - 1][i := row];
    }
  }

  /** A row's own adjusted day is counted at least once. */
  lemma CountOwnDay(rows: seq<Row>, i: nat)
    requires i < |rows| && rows[i].adjusted.Date?
    ensures Count(rows, rows[i].adjusted.day) >= 1
  {
    CountUpdate(rows, i, Row(rows[i].target, Empty));
  }
}
