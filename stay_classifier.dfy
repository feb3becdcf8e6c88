/**
 * The stay classifier: from a stay's check-in and check-out days to its
 * BR-category and the target day of its mid-stay deep cleaning.
 */
module StayClassifier {
  import opened Wrappers

  /** The BR-category of a stay: "no BR", "Mid" or "Long". */
  datatype Category = NoBR | Mid | Long

  /** The night-count rule of the driver and of the booking generator. */
  function CategoryOf(nights: int): Category {
    if 10 <= nights <= 14 then Mid
    else if nights > 14 then Long
    else NoBR
  }

  /** `calculate_br_cleaning_day`: `None` stands for the text "no BR". */
  function BrCleaningDay(category: Category, checkIn: int): Option<int> {
    match category
    case Mid => Some(checkIn + 7)
    case Long => Some(checkIn + 14)
    case NoBR => None
  }

  /** The target cleaning day of a stay: its category from the night count, then that category's offset from check-in. */
  function TargetDay(checkIn: int, checkOut: int): Option<int> {
    BrCleaningDay(CategoryOf(checkOut - checkIn), checkIn)
  }

  /** Position of a category in the order NoBR < Mid < Long. */
  function Rank(c: Category): nat {
    match c
    case NoBR => 0
    case Mid => 1
    case Long => 2
  }

  /** The category is "Mid" exactly for 10..14 nights, "Long" above, "no BR" below. */
  lemma CategoryBoundaries(nights: int)
    ensures CategoryOf(nights) == Mid <==> 10 <= nights <= 14
    ensures CategoryOf(nights) == Long <==> nights >= 15
    ensures CategoryOf(nights) == NoBR <==> nights <= 9
    ensures CategoryOf(9) == NoBR && CategoryOf(10) == Mid && CategoryOf(14) == Mid && CategoryOf(15) == Long
  {
  }

  /** A longer stay never gets a lower category. */
  lemma CategoryMonotone(shorter: int, longer: int)
    requires shorter <= longer
    ensures Rank(CategoryOf(shorter)) <= Rank(CategoryOf(longer))
  {
  }

  /**
   * A stay has a target day exactly when it lasts at least 10 nights; the
   * day is one or two weeks after check-in and falls strictly inside the stay.
   */
  lemma TargetWithinStay(checkIn: int, checkOut: int)
    ensures TargetDay(checkIn, checkOut).Some? <==> checkOut - checkIn >= 10
    ensures TargetDay(checkIn, checkOut).Some? ==>
      var t := TargetDay(checkIn, checkOut).value;
      && t - checkIn == (if checkOut - checkIn <= 14 then 7 else 14)
      && checkIn < t < checkOut
  {
  }
}
