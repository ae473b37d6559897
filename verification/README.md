# Tetron core in Dafny: the board evaluator and the placement enumerator

This project models the two central routines of a Tetris-playing bot.

- **`evaluate`** (`src/evaluator.rs`) scores a board. It works from the ten column heights, the holes
  under them, the choice between a normal and a downstack weight profile, an optional well column,
  the average height, global and local height deviations, and the attack/downstack counters.
- **`gen_moves`** (`src/gen_moves.rs`) enumerates placements. For each hold choice and each rotation
  tried, it slides the piece left and then right. It hard-drops after every successful shift and
  keeps the first move that produced each resulting field.

Modules:

- `Wrappers` holds `Option`.
- `Board` holds the field (20 rows of `bv16`, bit x is column x, row 0 at the top), pieces, keys,
  moves, counters and the game state.
- `Evaluator` has one method per block of `evaluate`. Each method keeps the loops of the source and is
  proved against a specification function. `Evaluate` is proved equal to the function `Score`.
- `EvaluatorProperties` holds the lemmas about those functions.
- `GenMoves` holds the enumerator. Its three loop levels are the methods `SweepDirection` (the
  inner `loop`), `SweepBranch` (the `for d` loop) and `GenerateMoves` (the hold and rotation
  loops). They are proved against `FirstWins(Trace(c))`: the map obtained by inserting, first one
  wins, every entry recorded in the order the loops record them.
- `GenMovesProperties` holds the lemmas about that map and that trace.

Collaborators of the enumerator:

- `Move::new`, `Move::apply_key` and `Field::apply_move` are not part of this model.
- They enter as the function-valued fields of `Rules`. `ContextOf` fixes them to the field, the
  active piece and the hold piece.
- The only facts assumed about them are in `ShiftsStayOnBoard`. This is one sufficient condition
  for the sweeps to terminate, and it also gives the bound of 10 placements per sweep:
  - a successful Left or Right lands on a column 0..9, strictly in its direction;
  - a hard drop keeps the column.

The evaluator's `f32` arithmetic is idealised as exact `real` arithmetic:

- The integer parts stay integers: heights, sums, hole counts, squared depths and local deviations.
- The source's real-valued tests are modelled as written in the methods. They are proved equal to
  integer criteria:
  - the mode test `20 - avg > 14` is exactly `sum < 60`;
  - the well test `avg - h[x] < 0 && |avg - h[x]| >= thr` is exactly `10*h[x] - sum >= 10*thr`.

Facts about the code that the proofs make explicit:

- **A single bottom cell makes no well.** With one occupied cell, at the bottom of column 0, column 0
  stands at 19 and the others at 20, and the average is 19.9. No column lies 4 rows below it, so
  there is no well, and the score is -246 (`EvaluatorProperties.SingleCellScore`).
- **The downstack profile never finds a well.** Its threshold of 20 can never be met, because a column
  would have to lie 20 rows below the average (`EvaluatorProperties.NoWellUnderDownstack`). So no
  column can meet both thresholds at once, and under the downstack threshold no column meets it.
- **Occupying a cell above a hole can lower the hole count.** Take column 0 with its top at row 10,
  rows 11 and 12 empty, and rows 13 to 19 occupied: it has 2 holes. Occupying row 11 leaves the hole
  at row 12 open, yet the count drops to 1, because row 11 was itself a hole
  (`EvaluatorProperties.FillingAboveAHoleCanLowerTheCount`). What does hold:
  - occupying a cell above a column's top never lowers the count; it grows by the number of empty
    rows between the new cell and the old top (`EvaluatorProperties.AddCellAboveTopAddsHoles`);
  - filling an empty cell below the top keeps every column's top and lowers the board's count by
    exactly one (`EvaluatorProperties.FillingAHoleLowersTheCount`).
- **The enumerator is not a search.** The comment on `gen_moves` (`src/gen_moves.rs:4-10`) describes
  a breadth-first search. The code is the fixed hold × rotation × direction sweep modelled here.
- **Ccw is never tried.** The rotation loop runs `r` over 0..2, so the `Ccw` arm (r = 3) is never
  taken. The model keeps the arm as written. `GenMovesProperties.GeneratedMovesIgnoreCcwAndFlags`
  proves that `Ccw` cannot influence the result.

## Model

| member | source | states |
|---|---|---|
| Evaluator.TopFrom | src/evaluator.rs:102-110 | the scan from row y stops at the first occupied cell of column x, or at 20; every row passed over is empty in that column |
| Evaluator.Heights | src/evaluator.rs:90-111 | every column height lies in 0..20 |
| Evaluator.ColumnHeights | src/evaluator.rs:97-111 | the heights found after skipping the leading empty rows (cache_y) are the heights of the topmost occupied cells |
| Evaluator.ScanColumn | src/evaluator.rs:102-110 | scanning one column from the first non-empty row stores that column's height and leaves the other columns' entries unchanged |
| Evaluator.TopFromSkipsEmptyRows | src/evaluator.rs:98-103 | starting the scan below rows that are entirely empty gives the same height |
| Evaluator.CountHoles | src/evaluator.rs:118-131 | the hole count and the sum of squared hole depths are the per-column counts of empty cells under each column's top |
| Evaluator.ModeTestExact | src/evaluator.rs:138 | the real-valued test `20 - sum/10 > 14`, with the downstack height threshold of 14, holds exactly when the height sum is below 60 |
| Evaluator.WellScan | src/evaluator.rs:155-166 | the well is a column whose height is at least thr rows below the average; it is the deepest such column, the first one among equally deep ones; with no candidate there is no well |
| Evaluator.FindWell | src/evaluator.rs:154-166 | the loop with the real-valued tests `d < 0`, `abs(d) >= thr` and `avg - h[pwell] > d` finds exactly that well |
| Evaluator.SumExceptSplit | src/evaluator.rs:167-169 | leaving the well out of the height sum subtracts its height |
| Evaluator.SumExceptUnchanged | src/evaluator.rs:167-169 | a prefix that does not reach the well column has its full sum |
| Evaluator.AverageHeight | src/evaluator.rs:167-169 | without a well, ten times the average is the height sum; with one, nine times the average is the sum of the nine other columns |
| Evaluator.WellAdjustedAverage | src/evaluator.rs:167-169 | recomputing the average as (10·avg − h[well]) / 9 gives the mean of the nine columns other than the well |
| Evaluator.HeightScore | src/evaluator.rs:176-181 | the average-height term is the weight times the squared distance of the playing height 20 − avg from the profile's ideal height |
| Evaluator.GlobalDeviation | src/evaluator.rs:184-200 | the loop that skips the well sums the squared deviations from the average over the non-well columns |
| Evaluator.LocalDeviation | src/evaluator.rs:203-217 | the loop with `abs_diff` sums the squared differences of adjacent columns, skipping both pairs that touch the well |
| Evaluator.Evaluate | src/evaluator.rs:84-234 | the score accumulated block by block equals the score of the field and counters |
| EvaluatorProperties.ColumnHeightIs | src/evaluator.rs:102-110 | a column's height is the row of its topmost occupied cell, or 20 when the column is empty |
| EvaluatorProperties.ColumnHolesAreEmptyCells | src/evaluator.rs:121-124 | a column's hole count is the number of empty cells strictly below its top |
| EvaluatorProperties.ColumnDepthSqAtLeastHoles | src/evaluator.rs:122-127 | every hole has depth at least 1, so a column's squared depths sum to at least its hole count |
| EvaluatorProperties.DepthSumSqAtLeastHoles | src/evaluator.rs:118-131 | the sum of squared hole depths is at least the number of holes |
| EvaluatorProperties.ColumnAfterAddCellAbove | src/evaluator.rs:97-131 | occupying a cell above the top of column x makes it that column's new top and adds the empty rows in between to its holes; every other column keeps its height and holes |
| EvaluatorProperties.AddCellAboveTopAddsHoles | src/evaluator.rs:118-131 | occupying a cell above a column's top never lowers the board's hole count: it grows by exactly top − r − 1 |
| EvaluatorProperties.FillingAHoleRemovesIt | src/evaluator.rs:121-124 | counting below a fixed top row, filling an empty cell under it removes exactly that one cell from the count |
| EvaluatorProperties.ColumnAfterFillingAHole | src/evaluator.rs:97-131 | filling an empty cell below the top of column x keeps every column's height; column x has one hole fewer and the other columns keep their holes |
| EvaluatorProperties.FillingAHoleLowersTheCount | src/evaluator.rs:118-131 | filling an empty cell below a column's top lowers the board's hole count by exactly one |
| EvaluatorProperties.FillingAboveAHoleCanLowerTheCount | src/evaluator.rs:118-131 | on a concrete board, occupying a cell above a hole without filling that hole takes the hole count from 2 to 1 |
| EvaluatorProperties.FlatFieldHeights | src/evaluator.rs:97-111 | on a flat board filled from row k down, every column has height k |
| EvaluatorProperties.FlatFieldHasNoHoles | src/evaluator.rs:118-131 | a flat filled board has no holes |
| EvaluatorProperties.FlatFieldMode | src/evaluator.rs:137-144 | on a flat board the downstack profile is chosen exactly when k < 6: a stack of 14 rows (k = 6) is normal, one of 15 rows (k = 5) is downstack |
| EvaluatorProperties.NoWellUnderDownstack | src/evaluator.rs:154-166 | under the downstack threshold of 20 no column is ever a well |
| EvaluatorProperties.GlobalDeviationIgnoresWell | src/evaluator.rs:187-192 | the global deviation sum does not depend on the well column's height |
| EvaluatorProperties.LocalDeviationIgnoresWell | src/evaluator.rs:206-211 | the local deviation sum does not depend on the well column's height |
| EvaluatorProperties.OffenseByProfile | src/evaluator.rs:222-230 | the offence term is 90·sum_atk − 35·sum_ds + 35·atk + 10·ds under the normal profile and 50·sum_atk + 300·sum_ds + 30·ds under the downstack profile |
| EvaluatorProperties.ShallowColumnsHaveNoHoles | src/evaluator.rs:121-122 | columns whose top is on the bottom row or empty contribute no holes and no depth |
| EvaluatorProperties.EmptyFieldScore | src/evaluator.rs:84-234 | the empty board with zero counters has every height at 20 and scores −250 |
| EvaluatorProperties.SingleCellScore | src/evaluator.rs:84-234 | one occupied cell at the bottom of column 0 gives heights 19, 20, …, 20, no well, and a score of −246 |
| GenMoves.SweepFrom | src/gen_moves.rs:36-48 | a sweep records at most one entry per column still ahead of the piece |
| GenMoves.Sweep | src/gen_moves.rs:36-48 | one direction's sweep records at most 10 placements |
| GenMoves.DirectionSweeps | src/gen_moves.rs:35-49 | the Left then Right sweeps of one branch record at most 10 placements each |
| GenMoves.RotationTrace | src/gen_moves.rs:24-50 | the rotations of one hold choice record at most 20 placements each |
| GenMoves.HoldTrace | src/gen_moves.rs:23-51 | each hold choice records at most 60 placements |
| GenMoves.FirstWins | src/gen_moves.rs:41-43 | the map built by inserting only absent fields has at most as many keys as there were entries |
| GenMoves.SweepDirection | src/gen_moves.rs:36-48 | the shift / hard-drop / insert-if-absent / `y := 1` loop leaves the map of the entries so far plus the sweep's entries, and the move of the first failing shift |
| GenMoves.SweepBranch | src/gen_moves.rs:35-49 | the Right sweep continues from the move the Left sweep left behind, and the map grows by both sweeps' entries |
| GenMoves.GenerateMoves | src/gen_moves.rs:11-53 | an empty queue gives an empty map; otherwise the hold piece is the held piece, or the second queued piece when nothing is held, and the map is the first-wins map of the entries of the hold × rotation × direction sweeps, with at most 120 fields |
| GenMovesProperties.FirstWinsKeys | src/gen_moves.rs:41-43 | the returned fields are exactly the fields recorded |
| GenMovesProperties.FirstWinsKeepsFirst | src/gen_moves.rs:41-43 | the first move recorded for a field is the one the map keeps; later duplicates do not overwrite it |
| GenMovesProperties.FirstWinsIsFirstOccurrence | src/gen_moves.rs:41-43 | every field is bound to the move of its first occurrence in the recording order |
| GenMovesProperties.FirstWinsExtends | src/gen_moves.rs:41-43 | recording more entries never removes or rebinds a field, so the map size never decreases |
| GenMovesProperties.SweepFromEntriesFromShifts | src/gen_moves.rs:37-44 | each entry a sweep records comes from a successful shift followed by a hard drop |
| GenMovesProperties.DirectionSweepsFromShifts | src/gen_moves.rs:35-49 | each entry of a branch comes from a successful shift |
| GenMovesProperties.RotationTraceFromShifts | src/gen_moves.rs:24-50 | each entry of a hold choice comes from a successful shift |
| GenMovesProperties.HoldTraceFromShifts | src/gen_moves.rs:23-51 | each recorded entry comes from a successful shift |
| GenMovesProperties.GeneratedPlacementsFromShifts | src/gen_moves.rs:37-47 | every returned field and move was produced by a successful Left or Right shift, then a hard drop; failed shifts add nothing |
| GenMovesProperties.SweepFromAgrees | src/gen_moves.rs:36-48 | a sweep depends only on the shifts, the moves left by hard drops, and the placement |
| GenMovesProperties.DirectionSweepsAgree | src/gen_moves.rs:35-49 | so does a branch's pair of sweeps |
| GenMovesProperties.BaseMoveAgrees | src/gen_moves.rs:25-32 | the starting move of a branch with r in 0..2 ignores the success flags of Hold and the rotations, and never uses Ccw |
| GenMovesProperties.RotationTraceAgrees | src/gen_moves.rs:24-50 | the entries of a hold choice do not depend on Ccw or on those flags |
| GenMovesProperties.HoldTraceAgrees | src/gen_moves.rs:23-51 | neither do the entries of the hold choices |
| GenMovesProperties.GeneratedMovesIgnoreCcwAndFlags | src/gen_moves.rs:24-39 | the returned map is unchanged by the behaviour of Ccw and by whether Hold, the rotations or the hard drop report success |

## Left out

- `dev_log!` output, `eval_sandbox` and the `#[cfg(test)]` modules: diagnostics and ad-hoc drivers with no effect on the result.
- `f32` rounding: the score is computed in exact reals, so results agree with the source only up to the rounding of its `f32` operations.
- `Move::new`, `Move::apply_key` and `Field::apply_move` are not part of this model. They are parameters (`Rules`), constrained only by `ShiftsStayOnBoard`. The collision rules, the rotation system and the line clears are outside it.
- `GenerateMoves`: requires `ShiftsStayOnBoard`. The source's sweep loop stops only when a shift fails, and this assumption is one sufficient condition for that. It also gives the bound of 10 placements per sweep.
- `GenerateMoves`: requires a hold piece to exist (held, or a second queued piece). The source indexes `pieces[1]` and panics when only one piece is queued and nothing is held.
- `Evaluate`: requires `sum_atk` and `sum_ds` to lie in 0..127. On those values the source's `as i8` casts and the `i8` subtraction change nothing, and outside them the casts wrap.
- `HashMap` iteration order: the map is a Dafny `map`, which has none; only its contents are modelled.
- `Move` fields beyond `x`, `y`, `rotation` and `held`: the model only reads `x`, resets `y`, and otherwise treats moves as opaque values.
- The `u8` heights and their `u8` sum: heights are at most 20 and the sum at most 200, so neither wraps; they are modelled as `int`.
