# BR-cleaning day assignment

A Dafny model of the scheduling core of `hotel_bookings.py`, a script that
keeps a worksheet of hotel bookings and plans a mid-stay deep cleaning
("BR-cleaning") for every long stay. The core has three parts:

- **Stay classifier** (`stay_classifier.dfy`): the night count of a stay gives
  its BR-category ("no BR", "Mid" for 10..14 nights, "Long" above 14) and the
  category gives the target cleaning day (check-in + 7 days for Mid,
  check-in + 14 days for Long, none otherwise).
- **Greedy assignment** (`greedy_assignment.dfy`, `adjust_br_cleaning_day`):
  for one target day and a schedule of cleanings per day, scan the days from
  7 before to 6 after the target. Phase 1 takes the first day with no
  cleaning. Phase 2 takes the day below the capacity that is nearest to the
  target, the earlier one on a tie. Otherwise the target is returned and the
  schedule left alone. The schedule is an object updated in place
  (`CleaningSchedule` in `day_load.dfy`); the method is proved equal to the
  pure function `Greedy`, whose contract states the three phases.
- **Iterative refinement** (`refinement.dfy`, `optimize_adjusted_days_simple`):
  up to `iterations` passes over the rows of the worksheet (an `array<Row>`,
  updated in place). Each pass rebuilds the schedule from every row's
  adjusted day. Then, row by row, it moves the row to the eligible day of
  `target ± searchWindow` nearest to the target when that day is strictly
  nearer than the current one, and updates the two counts. It stops after a
  pass that moves nothing. The method is proved equal to the function
  `Optimize`, built from `Pass`, `PassFrom`, `Step` and `Relocate`; the lemmas
  state what a move may do, conservation, capacity, termination and
  convergence.

Calendar days are integers (day numbers). The source keys its dictionary by
the `DD.MM.YYYY` text of a date, which is one-to-one at day granularity. A
worksheet cell holding a day is `Empty` (`None`), `Date(d)` (a date value or a
date text), or `Unparseable` (a text such as "no BR"). The schedule is a
`map<int, int>` in which a missing day has count 0.

Behaviour worth knowing:

- On an empty schedule the greedy assignment returns the target minus 7 days,
  not the target: phase 1 scans upward from offset -7 and takes the first
  free day (`GreedyOnEmptySchedule`).
- The fallback leaves the schedule untouched; it does not book the target day.
- A second refinement run on the result of the first is idle when the first
  stopped on a pass that moved nothing (`OptimizeRerunIsIdle`,
  `OptimizeStopsConverged`, `ConvergedIsFixpoint`). When the pass budget ran
  out first, a second run can still move rows (`SecondRunStillMoves`); it is
  idle then exactly when the rows happen to have converged
  (`PassIdleIffConverged`).
- The fallback happens when no day of the window is free AND none is below
  the capacity. This is the same as "every day at or above the capacity"
  only when the capacity is at least 1 (`GreedyKeepsCapacity`).
- In a refinement pass the current day is always an eligible candidate, but
  it can never win: its deviation equals the starting best, and only a
  strictly smaller deviation replaces the best. So a row moves only to a day
  below the capacity (`Relocate`, `Step`), and it moves exactly when such a
  day strictly nearer its target exists in its window
  (`StepMovesIffNearerFreeDay`).

## Model

| member | source | states |
|---|---|---|
| `StayClassifier.CategoryOf` | hotel_bookings.py:351-356 | no contract of its own: the category rule; `CategoryBoundaries` and `CategoryMonotone` state its properties |
| `StayClassifier.BrCleaningDay` | hotel_bookings.py:42-54 | no contract of its own: Mid gives check-in + 7, Long check-in + 14, no BR none; `TargetWithinStay` states its properties |
| `StayClassifier.TargetDay` | hotel_bookings.py:347-360 | no contract of its own: the night count fed to the category rule, then to the cleaning-day offset; `TargetWithinStay` states its properties |
| `StayClassifier.CategoryBoundaries` | hotel_bookings.py:351-356 | the category is Mid exactly for 10..14 nights, Long exactly from 15, "no BR" exactly up to 9; 9, 10, 14, 15 give no BR, Mid, Mid, Long |
| `StayClassifier.CategoryMonotone` | hotel_bookings.py:351-356 | a longer stay never gets a lower category |
| `StayClassifier.TargetWithinStay` | hotel_bookings.py:42-54 | a stay has a target day exactly when it lasts 10 nights or more; the target is check-in + 7 for up to 14 nights and check-in + 14 above, and lies strictly between check-in and check-out |
| `DayLoad.Load` | hotel_bookings.py:206 | no contract of its own: the count of a day, 0 when the day is missing; the schedule updates below state their effect through it |
| `DayLoad.CleaningSchedule.Get` | hotel_bookings.py:285 | no contract of its own: reads the schedule's count of a day through `Load` |
| `DayLoad.CleaningSchedule.constructor` | hotel_bookings.py:243 | a new schedule is empty |
| `DayLoad.CleaningSchedule.Set` | hotel_bookings.py:207 | one day's count is overwritten, nothing else changes |
| `DayLoad.CleaningSchedule.Increment` | hotel_bookings.py:221 | one day's count (0 when missing) rises by one, every other day's count is unchanged |
| `DayLoad.CleaningSchedule.Decrement` | hotel_bookings.py:296 | an existing day's count drops by one, every other day's count is unchanged; a missing day is a caller error |
| `GreedyAssignment.FirstFree` | hotel_bookings.py:201-208 | the result is the first day of the range with no cleaning, every earlier day has at least one; no result exactly when no day of the range is free |
| `GreedyAssignment.NearestUnderCap` | hotel_bookings.py:211-219 | the result is below the capacity and no other day of the range below the capacity is nearer the target, or equally near and earlier; no result exactly when every day is at or above the capacity |
| `GreedyAssignment.Greedy` | hotel_bookings.py:196-224 | phase 1: with a free day in target-7..target+6, the first free one is chosen and its count set to 1; phase 2: otherwise the nearest day below capacity (earlier on a tie) is chosen and its count raised by 1; fallback: otherwise the target with the schedule unchanged |
| `GreedyAssignment.GreedyChangesScheduleUnlessFallback` | hotel_bookings.py:220-224 | the schedule is unchanged if and only if the window has neither a free day nor a day below capacity |
| `GreedyAssignment.GreedyTotal` | hotel_bookings.py:201-224 | the total number of cleanings grows by exactly one, or by none in the fallback |
| `GreedyAssignment.GreedyKeepsCapacity` | hotel_bookings.py:211-224 | with capacity at least 1 no day ends above max(its count before, capacity), and the fallback happens exactly when every day of the window is at or above capacity |
| `GreedyAssignment.GreedyOnEmptySchedule` | hotel_bookings.py:201-208 | on an empty schedule the day 7 days before the target is chosen and booked once |
| `GreedyAssignment.GreedyTieGoesToEarlierDay` | hotel_bookings.py:211-219 | when only target-2 and target+2 are below capacity and no day is free, target-2 is chosen |
| `GreedyAssignment.AdjustBrCleaningDay` | hotel_bookings.py:187-224 | the two scanning loops return exactly the day `Greedy` chooses and leave the schedule exactly as `Greedy` says |
| `Worksheet.Rebuild` | hotel_bookings.py:243-251 | the rebuilt count of every day is the number of rows whose adjusted cell is that day, rows without a target included |
| `Worksheet.RebuildTotal` | hotel_bookings.py:243-251 | the rebuilt schedule holds one cleaning per row with a dated adjusted cell |
| `Worksheet.CountUpdate` | hotel_bookings.py:294-300 | rewriting one row moves its contribution from its old adjusted day to its new one |
| `Worksheet.CountOwnDay` | hotel_bookings.py:296 | a row's own adjusted day has a count of at least one, so the decrement finds its key |
| `Refinement.Eligible` | hotel_bookings.py:285-287 | no contract of its own: a candidate is the current day or below the capacity; `Relocate` states what the scan makes of it |
| `Refinement.Relocate` | hotel_bookings.py:277-291 | the result is the current day or a day of the window below capacity strictly nearer the target; no eligible candidate is nearer; on a tie the earlier day wins |
| `Refinement.MovedCloserTransitive` | hotel_bookings.py:289-291 | two moves nearer the target make one move nearer the target |
| `Refinement.Step` | hotel_bookings.py:256-301 | a row moves only if its target and current day parse, to a day of target±window below capacity and strictly nearer; the old day's count drops by one and the new day's rises by one; a row on its target never moves |
| `Refinement.HasNearerFreeDay` | hotel_bookings.py:229-231 | no contract of its own: some day of the row's window is below the capacity and strictly nearer its target, the condition under which a row is to be moved |
| `Refinement.StepMovesIffNearerFreeDay` | hotel_bookings.py:281-300 | a row with a parsed target and current day moves if and only if some day of target±window is below capacity and strictly nearer its target |
| `Refinement.PassFrom` | hotel_bookings.py:255-301 | no contract of its own: the rows from `i` on, each stepped against the schedule left by the rows before; `PassFromShape`, `PassFromKeepsSync`, `PassFromKeepsCapacity` and `PassFromIdleIff` state its properties |
| `Refinement.PassFromShape` | hotel_bookings.py:255-301 | a pass leaves earlier rows alone, each row stays or moves nearer inside the window, and it counts no move exactly when no row changed |
| `Refinement.StepKeepsSync` | hotel_bookings.py:294-300 | after one row the schedule still counts the rows on every day, and the total and the number of dated rows are conserved |
| `Refinement.PassFromKeepsSync` | hotel_bookings.py:255-301 | the schedule stays equal to the row counts through a pass; the total is conserved |
| `Refinement.PassFromKeepsCapacity` | hotel_bookings.py:284-298 | no day ends a pass above max(its count before, capacity) |
| `Refinement.Pass` | hotel_bookings.py:242-301 | no contract of its own: one iteration, the schedule rebuilt and then every row stepped; `PassKeepsCapacity` and `PassIdleIffConverged` state its properties |
| `Refinement.PassKeepsCapacity` | hotel_bookings.py:241-301 | over a pass from a rebuilt schedule: counts stay in step with rows, dated rows are conserved, no day rises above max(before, capacity) |
| `Refinement.PassFromIdleIff` | hotel_bookings.py:255-301 | the rest of a pass moves nothing if and only if none of its rows with a parsed target and current day has a nearer day below capacity in its window |
| `Refinement.Converged` | hotel_bookings.py:304-306 | no contract of its own: no row with a parsed target and current day has a day of its window below the capacity of the rebuilt schedule and strictly nearer its target |
| `Refinement.PassIdleIffConverged` | hotel_bookings.py:242-306 | a pass moves nothing if and only if the rows have converged, and then it leaves the rows as they are |
| `Refinement.Optimize` | hotel_bookings.py:241-306 | no contract of its own: at most `iterations` passes, stopping after one that moves nothing; the lemmas below state its properties |
| `Refinement.OptimizeTerminates` | hotel_bookings.py:241-306 | at most `iterations` passes and at least one when it is positive; every pass but the last moved something; fewer passes than the budget means the last moved nothing |
| `Refinement.OptimizeOnlyImproves` | hotel_bookings.py:241-306 | every row ends unchanged or with the same target and an adjusted day inside the window strictly nearer its target; rows without a parsed target and current day never change |
| `Refinement.OptimizeKeepsCapacity` | hotel_bookings.py:241-306 | refinement conserves the number of dated rows and never fills a day beyond max(its count before, capacity) |
| `Refinement.OptimizeRerunIsIdle` | hotel_bookings.py:304-306 | after stopping on a pass with no move, any further run makes one pass and moves nothing |
| `Refinement.OptimizeStopsConverged` | hotel_bookings.py:304-306 | when refinement stops on a pass that moved nothing, its rows have converged |
| `Refinement.ConvergedIsFixpoint` | hotel_bookings.py:241-306 | on converged rows refinement makes one pass, moves nothing and returns the rows unchanged |
| `Refinement.RebuildSchedule` | hotel_bookings.py:242-251 | the rebuild loop produces a fresh schedule equal to `Rebuild` of the rows |
| `Refinement.BestCandidate` | hotel_bookings.py:277-291 | the scan over offsets -window..window returns exactly `Relocate` of the window |
| `Refinement.ImproveRow` | hotel_bookings.py:256-301 | the row loop's body rewrites only row i and the schedule, exactly as `Step` says; it needs the row's current day to be a key of the schedule, which the decrement of line 296 demands |
| `Refinement.OptimizationPass` | hotel_bookings.py:242-301 | one iteration leaves the rows and the move count exactly as `Pass` says |
| `Refinement.OptimizeAdjustedDaysSimple` | hotel_bookings.py:226-306 | the rows and the per-iteration move counts are exactly those of `Optimize` |
| `RefinementExamples.FirstPassExample` | hotel_bookings.py:253-301 | on two rows with capacity 1 and window 1, the first pass moves only the second row |
| `RefinementExamples.SecondPassExample` | hotel_bookings.py:253-301 | the second pass moves the first row onto the day the second row freed |
| `RefinementExamples.SecondRunStillMoves` | hotel_bookings.py:241-306 | with one pass of budget, a second run on the first run's result still makes a move |

## Left out

- `fetch_random_user`: an HTTP request to an external service.
- `adjust_formulas`: formula rewriting through a spreadsheet library.
- `generate_new_row`: workbook reads, random choices and the HTTP request; its night-count rule is the one `CategoryOf` models.
- The driver loop at the end of the script: workbook load and save, row insertion, COUNTIF and deviation formula texts, console output and input. It calls the greedy assignment with "no BR" for short stays, which the source's date parsing rejects with an exception; the model's greedy assignment takes a day. After the greedy pass it counts again, in its schedule, the assignments the greedy pass has just booked (rows the greedy pass skipped, and rows whose greedy call fell back without booking, are counted once); that code is not part of this model.
- Date parsing and formatting: days are integers. A date text that parses but is not in canonical `DD.MM.YYYY` form (such as `1.6.2025`) would have a dictionary key different from the formatted candidate's; the model assumes canonical texts. Times of day inside date values are not modelled.
- The failed-parse paths that skip a row are the `Empty` and `Unparseable` cells: a target text that is not a date (`except ValueError`), and an adjusted value of any kind that is not a date (`except Exception`).
- A target value that is neither empty, a date value nor text (a number typed into the target column, say) makes the source's date parsing raise a `TypeError` that nothing catches, so the whole refinement call stops. The model does not capture this crash: its `Unparseable` target cell stands only for text, and such a row is skipped.
- `Worksheet.Rebuild`: an adjusted cell holding unparseable text is counted by the source under its own text key, which no candidate date ever equals; the model's schedule keeps only date keys, so such cells change no decision but are not in its total.
- The `float('inf')` sentinel of phase 2 is the `None` of an `Option`.
- The per-iteration console report is the returned `log` of move counts; printing is not modelled.
- Worksheet columns (`target_col`, `adjusted_col`) and rows 3..`max_row` are the two fields of `Row` and the indices 0..n-1 of the array.
- Default arguments (capacity 5, 3 iterations, window 14; the driver passes window 7) are not modelled; every call takes them explicitly.
