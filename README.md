# Adaptive mesh and multiresolution prediction (mure), in Dafny

This project models the core of the `mure` adaptive-mesh library in one
space dimension, together with the multiresolution prediction of its
finite-volume demos.

- **`Intervals`** (`interval.dfy`) models `mure::Interval`: a half-open
  range `[start, end)` with a storage index, and its `contains`, `size`
  and `is_valid` queries.
- **`LevelCells`** (`level_cell_array.dfy`) models the cells of one
  refinement level as a sorted run of non-overlapping valid intervals. It
  covers only what the mesh asks of it: `empty()`, `nb_cells()` and the
  cell traversal.
- **`CellArrays`** (`cell_array.dfy`) models the mesh `CellArray` as a
  class over an array of levels `0..max_refinement_level`. It has the
  constructor, level access, `nb_cells`, `max_level`, `for_each_cell` and
  `for_each_cell_on_level`. A callback is modelled by the sequence of
  cells it receives.
- **`StridedIntervals`** (`strided_interval.dfy`) models the interval type
  of the prediction code, with its `step`. It covers the coarsenings
  `i / 2` and `k >> 1` and the shifts `i + 1` and `i - 1`.
- **`Memo`** (`memo.dfy`) models the memoisation maps: lookup, the
  size-checked lookup, `insert` and `operator[]`.
- **`Multiresolution`** (`multiresolution.dfy`) defines the prediction of
  one cell. A cell that exists keeps its stored value. A missing cell `x`
  at level `l` is computed from its parent `x / 2` and the parent's two
  neighbours at level `l - 1`. The stencil is
  `parent - 1/8 * sign(x) * (right - left)`.
- **`ScalarPrediction`** (`prediction.dfy`) models the memoised
  `prediction` of one component on a strided interval. The Burgers and
  shallow-water demos share this function.
- **`BatchPrediction`** (`prediction_all.dfy`) models the memoised
  `prediction_all` of the shallow-water demo. It predicts every component
  at once on a unit-step interval, one row per coordinate. It also models
  the Burgers demo's combination step as written.

The imperative operations are methods proved against specification
functions:

- `CellArray.NbCells` and `ForEachCell` are proved against `TotalCells`
  and `Traversal`. `MaxLevel` states its result directly: the highest
  non-empty level, or 0 when every level is empty. Beside it,
  `MaxLevelAsWritten` models the loop as the code writes it.
- `Prediction` and `PredictionAll` are proved against `Predict` and
  `PredictAll`. These are defined cell by cell through `PredictAt`. The
  interval recursion of the source is then proved to compute them
  (`PredictRecursion`, `BatchFilledIsPredict`).
- Both prediction methods preserve a memo invariant (`Sound`,
  `BatchSound`): every recorded entry holds the prediction of the
  interval it was recorded with.
- The prediction reproduces linear fields exactly
  (`LinearFieldsReproduced`).

Existence queries (`mesh.exists`, including the wider cells-and-ghosts
query) are a parameter `Existence`. Field storage is a parameter `Field`.

In two places the code and the library's design description disagree:

- The description asks that a memo entry recorded with an interval of a
  different size count as a miss, and that an existing entry never be
  overwritten. The shallow-water `prediction_all` does both, and
  `BatchPrediction.PredictionAll` models it as written. The scalar
  `prediction` in both demos and the Burgers `prediction_all` do neither:
  they return whatever `find` gives under the key and then record with
  `operator[]`. For the scalar `prediction` the model follows the design
  here, not the code. `ScalarPrediction.Prediction` uses the size-checked
  lookup and `insert`. The code as written, `find` without a size check and
  then `operator[]` (`Memo.FindAnyExtent`, `Memo.Assign`), appears only in
  `ScalarPrediction.UncheckedLookupWrongLength`, which shows where the two
  differ (see Findings).
- The description says an invalid interval is rejected on construction.
  `Interval(start, end, index)` stores any bounds, and the model follows
  the code (`Intervals.Make`).

## Model

| member | source | states |
|---|---|---|
| Intervals.Interval.Contains | include/mure/interval.hpp:29-32 | membership is half-open, and an interval that is not valid contains no coordinate |
| Intervals.Interval.IsValid | include/mure/interval.hpp:39-42 | an interval is valid exactly when it has a last coordinate `end - 1` at or after its start |
| Intervals.Interval.Size | include/mure/interval.hpp:34-37 | the size is positive exactly for valid intervals, and non-positive exactly when the start is not contained |
| Intervals.Default | include/mure/interval.hpp:20-24 | the default interval `[0, 0)` is not valid, has size 0 and contains nothing |
| Intervals.Make | include/mure/interval.hpp:26-27 | the constructor keeps its arguments, and the result is valid exactly when `start < end` |
| Intervals.BoundaryMembership | include/mure/interval.hpp:29-42 | `end` is never contained; `start` is contained iff the interval is valid iff its size is positive |
| Intervals.ContainedCount | include/mure/interval.hpp:29-42 | a valid interval contains exactly `size()` coordinates, an invalid one none |
| LevelCells.LevelCellArray.NbCells | include/mure/cell_array.hpp:40 | a level's cell count is zero exactly when the level is empty |
| LevelCells.CellsCount | include/mure/cell_array.hpp:62 | the per-level traversal hands out exactly `nb_cells()` cells |
| LevelCells.CellsMembership | include/mure/cell_array.hpp:62 | the per-level traversal visits a cell iff it carries the traversal's level and its coordinate is present at that level |
| LevelCells.CellsIncreasing | include/mure/cell_array.hpp:73 | within one level, cells are visited in strictly increasing coordinate order |
| CellArrays.TraversalCount | include/mure/cell_array.hpp:35-65 | summing `nb_cells()` over the levels counts each cell of `for_each_cell` exactly once |
| CellArrays.TraversalMembership | include/mure/cell_array.hpp:55-65 | `for_each_cell` visits `(l, x)` iff `x` is present at level `l` of the mesh |
| CellArrays.TraversalLevelOrder | include/mure/cell_array.hpp:55-65 | `for_each_cell` visits levels in non-decreasing order, all within the mesh |
| CellArrays.MaxLevelAsWritten | include/mure/cell_array.hpp:45-53 | the loop as written, from a given level down: a returned level is non-empty, at most the start level, with every level between them empty; otherwise it reads an index past the last level, below 2^64 |
| CellArrays.AllEmptyScanReadsPastEnd | include/mure/cell_array.hpp:47-52 | on an all-empty mesh, the `max_level` loop as written wraps below 0 and reads level 2^64 - 1 instead of returning 0 |
| CellArrays.EmptyBelowReadsPastEnd | include/mure/cell_array.hpp:47-51 | the loop as written, started at a level with every level below it empty, wraps past 0 |
| CellArrays.NonEmptyScanReturnsHighest | include/mure/cell_array.hpp:47-51 | when some level at or below the start is non-empty, the loop as written returns the highest such level |
| CellArrays.CellArray.constructor | include/mure/cell_array.hpp:17-23 | every level `0..max_refinement_level` receives the cell list's level |
| CellArrays.CellArray.Empty | include/mure/cell_array.hpp:17-23 | the default construction leaves every level empty |
| CellArrays.CellArray.Level | include/mure/cell_array.hpp:25-28 | the const `operator[]` returns the stored level `l` itself, and it is well formed |
| CellArrays.CellArray.SetLevel | include/mure/cell_array.hpp:30-33 | writing through `operator[]` changes that level only |
| CellArrays.CellArray.NbCells | include/mure/cell_array.hpp:35-43 | `nb_cells()` is the sum of the level counts, which is the length of the `for_each_cell` traversal |
| CellArrays.CellArray.MaxLevel | include/mure/cell_array.hpp:45-53 | the highest non-empty level (every level above it empty), or 0 when every level is empty |
| CellArrays.CellArray.ForEachCell | include/mure/cell_array.hpp:55-65 | the per-level traversal runs on exactly the non-empty levels, in increasing order, and the callback receives the traversal's cells |
| CellArrays.CellArray.ForEachCellOnLevel | include/mure/cell_array.hpp:67-75 | the callback receives exactly that level's cells, `nb_cells()` of them, in increasing order |
| StridedIntervals.StridedInterval.Shift | demos/FiniteVolume-MR/D1Q2_Burgers.cpp:122-123 | `ig + d` keeps size and step and moves every visited coordinate by `d` |
| StridedIntervals.ShiftRight | demos/FiniteVolume-MR/D1Q5_ShallowWaters.cpp:626-627 | `k >> 1` with step 1 runs from the parent of the first to the parent of the last coordinate, so every coordinate's parent is a row of it |
| StridedIntervals.CoordBelowEnd | demos/FiniteVolume-MR/D1Q2_Burgers.cpp:116-119 | the loop guard `ii < i.end` holds exactly for the first `size / step` visited coordinates |
| StridedIntervals.Halve | demos/FiniteVolume-MR/D1Q2_Burgers.cpp:111-113 | `i / 2` with `step >> 1`: each bound and the step of the result is the floor of half the original (twice it lies within 1 below the original) |
| StridedIntervals.HalveStrided | demos/FiniteVolume-MR/D1Q2_Burgers.cpp:111-113 | `i / 2` with the step halved has as many coordinates, and the k-th is the parent of the k-th coordinate of `i` |
| StridedIntervals.ShiftStrided | demos/FiniteVolume-MR/D1Q2_Burgers.cpp:122-123 | `ig + 1` and `ig - 1` stay at the same level with the same count |
| Memo.FindAnyExtent | demos/FiniteVolume-MR/D1Q2_Burgers.cpp:95-98 | the lookup hits iff the key is recorded, and returns the recorded value |
| Memo.FindSameSize | demos/FiniteVolume-MR/D1Q5_ShallowWaters.cpp:587-593 | the lookup hits iff the key is recorded with an interval of the same size |
| Memo.Insert | demos/FiniteVolume-MR/D1Q5_ShallowWaters.cpp:666-669 | `insert` adds the key and leaves every existing entry, including one under the same key, unchanged |
| Memo.Assign | demos/FiniteVolume-MR/D1Q2_Burgers.cpp:136 | `operator[]` replaces the value, keeps the first-recorded interval, and leaves other keys alone |
| Memo.InsertVersusAssign | demos/FiniteVolume-MR/D1Q5_ShallowWaters.cpp:666-669 | on an absent key the two updates agree; on a present key `insert` keeps the old value and `operator[]` replaces it |
| Memo.InsertExtends | demos/FiniteVolume-MR/D1Q5_ShallowWaters.cpp:666-669 | `insert` never removes or changes an entry |
| Multiresolution.ParitySign | demos/FiniteVolume-MR/D1Q2_Burgers.cpp:118 | the sign is +1 iff the coordinate is even, -1 otherwise |
| Multiresolution.Interpolate | demos/FiniteVolume-MR/D1Q2_Burgers.cpp:122-123 | the stencil gives the parent's value where both neighbours agree |
| Multiresolution.SiblingsAverageToParent | demos/FiniteVolume-MR/D1Q2_Burgers.cpp:122-123 | the two children of one parent, predicted with opposite signs, average to the parent: the prediction conserves the mean |
| Multiresolution.PredictAt | demos/FiniteVolume-MR/D1Q2_Burgers.cpp:106-123 | a cell that exists is predicted to hold its stored value |
| Multiresolution.StencilOnLinear | demos/FiniteVolume-MR/D1Q2_Burgers.cpp:122-123 | the stencil over the parent averages of a linear profile gives the child average, for both parities |
| Multiresolution.LinearFieldsReproduced | demos/FiniteVolume-MR/D1Q2_Burgers.cpp:88-141 | on a linear field, every cell, present or not, is predicted to hold the field's own value |
| ScalarPrediction.Stored | demos/FiniteVolume-MR/D1Q2_Burgers.cpp:108 | `f(item, lvl, i)`: one stored value per visited coordinate, in order |
| ScalarPrediction.Combine | demos/FiniteVolume-MR/D1Q2_Burgers.cpp:122-133 | the combined buffer has one value per visited coordinate |
| ScalarPrediction.Predict | demos/FiniteVolume-MR/D1Q2_Burgers.cpp:102 | the prediction has `i.size() / i.step` values |
| ScalarPrediction.MissingAboveGround | demos/FiniteVolume-MR/D1Q2_Burgers.cpp:106-113 | when some visited cell is missing, `level > 0`, so `level - 1` is a level |
| ScalarPrediction.StencilAt | demos/FiniteVolume-MR/D1Q2_Burgers.cpp:111-123 | each cell's prediction is its stored value or the stencil over the predictions on `i / 2` and `i / 2 ± 1` at the same position |
| ScalarPrediction.FilledAt | demos/FiniteVolume-MR/D1Q2_Burgers.cpp:122-133 | one position filled as the source fills it holds the prediction of its coordinate |
| ScalarPrediction.PredictRecursion | demos/FiniteVolume-MR/D1Q2_Burgers.cpp:106-133 | the prediction is the stored values when every cell exists, and otherwise the combination of the three predictions one level coarser |
| ScalarPrediction.PredictReproducesLinear | demos/FiniteVolume-MR/D1Q2_Burgers.cpp:88-141 | on a linear field the interval prediction is the stored values |
| ScalarPrediction.ParitySigns | demos/FiniteVolume-MR/D1Q2_Burgers.cpp:114-119 | `d` has one entry per visited coordinate, +1 iff even and -1 iff odd |
| ScalarPrediction.AllOfMask | demos/FiniteVolume-MR/D1Q2_Burgers.cpp:103-106 | `xt::all(mask)` on the existence mask holds exactly when every visited cell exists (`AllExist`) |
| ScalarPrediction.ExistsMask | demos/FiniteVolume-MR/D1Q2_Burgers.cpp:103 | one existence flag per visited coordinate |
| ScalarPrediction.Interpolated | demos/FiniteVolume-MR/D1Q2_Burgers.cpp:122-123 | every position holds the stencil over the three coarser predictions with its sign |
| ScalarPrediction.MaskedFill | demos/FiniteVolume-MR/D1Q2_Burgers.cpp:126-133 | `out` holds the stored value where the cell exists and the interpolated value elsewhere |
| ScalarPrediction.FilledIsPredict | demos/FiniteVolume-MR/D1Q2_Burgers.cpp:122-133 | the buffer filled from the three coarser predictions is the prediction of `i` |
| ScalarPrediction.InsertKeepsSound | demos/FiniteVolume-MR/D1Q2_Burgers.cpp:136 | recording a prediction under its own key keeps every memo entry a correct prediction |
| ScalarPrediction.Coarser | demos/FiniteVolume-MR/D1Q2_Burgers.cpp:122-123 | the three recursive calls return the predictions on `ig`, `ig + 1` and `ig - 1`, keep the memo sound and growing, and add keys of level at most `level - 1` only |
| ScalarPrediction.Prediction | demos/FiniteVolume-MR/D1Q2_Burgers.cpp:88-141 | with the size-checked lookup and `insert` the design asks for: returns the prediction of `i` and keeps the memo sound; a same-size hit and an all-present interval leave the memo unchanged; otherwise the key is recorded, with `(i, out)` itself when it was absent; every key added has level at most `level` (the same function is at D1Q5_ShallowWaters.cpp lines 153-207) |
| ScalarPrediction.RepeatedPredictionHits | demos/FiniteVolume-MR/D1Q2_Burgers.cpp:95-136 | when the key is absent or recorded with an interval of the same size, a second identical call returns the same values as the first and leaves the memo as the first left it |
| ScalarPrediction.GroundedStopsAtLevelZero | demos/FiniteVolume-MR/D1Q2_Burgers.cpp:106-113 | at level 0 above a complete coarsest level every cell exists, so the unsigned `level - 1` is never reached |
| ScalarPrediction.AssignOtherCountUnsound | demos/FiniteVolume-MR/D1Q2_Burgers.cpp:136 | `operator[]` on a recorded key with a value whose length differs from the recorded interval's count leaves a memo that is not sound. As written, the store at line 136 only meets absent keys (a recorded key returns at lines 95-98), so there it equals `insert`. The lemma shows why a size-checked lookup needs `insert`, not a defect of the code as written |
| ScalarPrediction.FirstMissing | demos/FiniteVolume-MR/D1Q2_Burgers.cpp:103-109 | when the first visited cell is missing, not every cell exists, so the prediction goes on past the all-present return |
| ScalarPrediction.StaleEntry | demos/FiniteVolume-MR/D1Q2_Burgers.cpp:95-98 | with `[0, 4)` of step 2 recorded under start 0 at level 1, the lookup as written answers the one-cell request `[0, 2)` of step 2 with two values (the defect as written); the size-checked lookup misses; and `operator[]` would break soundness only if paired with the size-checked lookup, because as written a recorded key returns before the store |
| ScalarPrediction.UncheckedLookupWrongLength | demos/FiniteVolume-MR/D1Q2_Burgers.cpp:95-136 | over a complete level 0 and an empty level 1, predicting `[0, 4)` of step 2 at level 1 from an empty memo records two values under start 0; the later request `[0, 2)` of step 2 (one cell) then gets those two values from the lookup as written, where the size-checked lookup misses. Paired with the size-checked lookup, `operator[]` would leave a memo that is not sound; as written that request returns early |
| BatchPrediction.StoredRow | demos/FiniteVolume-MR/D1Q5_ShallowWaters.cpp:661 | the stored row of one cell holds one value per component |
| BatchPrediction.StoredRows | demos/FiniteVolume-MR/D1Q5_ShallowWaters.cpp:620 | `f(0, 5, lvl, k)`: one stored row per coordinate of `k`, in order |
| BatchPrediction.PredictRow | demos/FiniteVolume-MR/D1Q5_ShallowWaters.cpp:655-664 | a cell's predicted row has one value per component and is the stored row when the cell exists |
| BatchPrediction.PredictAll | demos/FiniteVolume-MR/D1Q5_ShallowWaters.cpp:605-606 | the batch prediction has `k.size()` rows |
| BatchPrediction.PredictAllRows | demos/FiniteVolume-MR/D1Q5_ShallowWaters.cpp:578-675 | row `q` is the predicted row of coordinate `k.start + q`, and every row has one value per component |
| BatchPrediction.StoredIsPredicted | demos/FiniteVolume-MR/D1Q5_ShallowWaters.cpp:618-621 | when every coordinate exists, the prediction is the stored rows |
| BatchPrediction.BatchColumnsAreScalar | demos/FiniteVolume-MR/D1Q5_ShallowWaters.cpp:633-653 | column `c` of the batch prediction is the scalar prediction of component `c` |
| BatchPrediction.BatchReproducesLinear | demos/FiniteVolume-MR/D1Q5_ShallowWaters.cpp:633-653 | on a field with linear components, the batch prediction is the stored rows |
| BatchPrediction.StencilRow | demos/FiniteVolume-MR/D1Q5_ShallowWaters.cpp:647-653 | the stencil row has one value per component |
| BatchPrediction.StartEven | demos/FiniteVolume-MR/D1Q5_ShallowWaters.cpp:640 | `start_even` is 0 or 1, and the coordinate of that row is even |
| BatchPrediction.StartOdd | demos/FiniteVolume-MR/D1Q5_ShallowWaters.cpp:641 | `start_odd` is 0 or 1, and the coordinate of that row is odd |
| BatchPrediction.EndOdd | demos/FiniteVolume-MR/D1Q5_ShallowWaters.cpp:643 | `end_odd` is `kg.size()` or one less |
| BatchPrediction.ViewShapesAgree | demos/FiniteVolume-MR/D1Q5_ShallowWaters.cpp:640-653 | for every non-empty `k`, each strided view of `val` has as many rows as the parent view assigned to it |
| BatchPrediction.ViewSource | demos/FiniteVolume-MR/D1Q5_ShallowWaters.cpp:647-653 | the parent row a view pairs with a row of `val` exists |
| BatchPrediction.ViewRows | demos/FiniteVolume-MR/D1Q5_ShallowWaters.cpp:647-653 | the two view assignments fill all `k.size()` rows of `val` |
| BatchPrediction.ViewSourceIsParent | demos/FiniteVolume-MR/D1Q5_ShallowWaters.cpp:640-653 | row `q` is paired with the parent of coordinate `k.start + q`, and lies in the even-child view iff that coordinate is even |
| BatchPrediction.ViewRowAt | demos/FiniteVolume-MR/D1Q5_ShallowWaters.cpp:647-653 | row `q` of `val` is the stencil over the parent rows of its coordinate, with its coordinate's sign |
| BatchPrediction.ParentRowsAt | demos/FiniteVolume-MR/D1Q5_ShallowWaters.cpp:626-635 | the parent row of `x` in the predictions on `kg`, `kg - 1` and `kg + 1` is the predicted row of `x >> 1`, `(x >> 1) - 1` and `(x >> 1) + 1` |
| BatchPrediction.FilledRowAt | demos/FiniteVolume-MR/D1Q5_ShallowWaters.cpp:647-664 | a row filled as the source fills it is the predicted row of its coordinate |
| BatchPrediction.MaskedFillRows | demos/FiniteVolume-MR/D1Q5_ShallowWaters.cpp:655-664 | `out` holds the stored row where the cell exists and the view row elsewhere |
| BatchPrediction.BatchRowAt | demos/FiniteVolume-MR/D1Q5_ShallowWaters.cpp:626-664 | row `q` filled from the three parent predictions is row `q` of the prediction |
| BatchPrediction.BatchFilledIsPredict | demos/FiniteVolume-MR/D1Q5_ShallowWaters.cpp:626-664 | the rows filled from the three parent predictions are the prediction of `k` |
| BatchPrediction.BatchInsertKeepsSound | demos/FiniteVolume-MR/D1Q5_ShallowWaters.cpp:666-669 | `insert` of a prediction under its own key keeps every memo entry correct |
| BatchPrediction.CoarserRows | demos/FiniteVolume-MR/D1Q5_ShallowWaters.cpp:633-635 | `earth`, `W` and `E` are the predictions on `kg`, `kg - 1` and `kg + 1`, computed in that order; the memo stays sound and growing, and only keys of level at most `level - 1` are added |
| BatchPrediction.RefineRows | demos/FiniteVolume-MR/D1Q5_ShallowWaters.cpp:639-664 | given the three parent predictions, the views and the masked loop produce the prediction of `k` |
| BatchPrediction.PredictionAll | demos/FiniteVolume-MR/D1Q5_ShallowWaters.cpp:578-675 | returns the prediction of `k` and keeps the memo sound; a same-size hit and an all-present interval leave the memo unchanged; otherwise the key is recorded, with `(k, out)` itself when it was absent; every key added has level at most `level` |
| BatchPrediction.RepeatedPredictionAllHits | demos/FiniteVolume-MR/D1Q5_ShallowWaters.cpp:587-669 | when the key is absent or recorded with an interval of the same size, a second identical call returns the same rows as the first and leaves the memo as the first left it |
| BatchPrediction.BurgersViewRowsAsWritten | demos/FiniteVolume-MR/D1Q2_Burgers.cpp:177-181 | as written, row `q` takes parent row `q / 2` with the sign of `q`'s parity, not of the coordinate's |
| BatchPrediction.CounterexamplePredicted | demos/FiniteVolume-MR/D1Q2_Burgers.cpp:144-196 | on `[1, 2)` over a complete level 0 of a linear field, the prediction is 1.5 in both components, the field's own value |
| BatchPrediction.BurgersParityCounterexample | demos/FiniteVolume-MR/D1Q2_Burgers.cpp:174-181 | on the same input the Burgers combination as written yields 0.5, not the prediction 1.5 |

## Left out

- Bounded integers are not modelled: coordinates, levels, `int` loop counters and `std::size_t` sizes are unbounded here. The one place where wrap-around is the behaviour (`max_level`) is modelled explicitly.
- IEEE floating point is not modelled: values are exact reals.
- The xtensor machinery (buffer shapes, broadcasting, uninitialised `xt::empty` buffers, masked views) is modelled by its effect on whole sequences. The all-column mask `mask_all` is the row mask applied to every component.
- `LevelCellArray` (`include/mure/level_cell_array.hpp`) is not part of this model beyond `empty()`, `nb_cells()` and `for_each_cell(func, level)`. It is taken to be a sorted run of non-overlapping valid intervals in one dimension.
- The interval type with `step` (`Config::interval_t`) is not part of this model. Five readings are assumed:
  - `i / 2` floors both bounds;
  - `k >> 1` floors the start and the last coordinate;
  - its ordering, and so a memo key, compares starts only;
  - `ig + d` and `ig - d` translate both bounds by `d` and keep the step;
  - the scalar `prediction` is called on intervals of step `2^level` whose extent is a multiple of the step, as its callers build them with `i * (1 << j)`, which is taken to scale both bounds and set the step to `1 << j`, translated by one afterwards (the precondition `Strided(i, level)`).
- `mesh.exists` and its cells-and-ghosts variant are the parameter `Existence`, and the field accessor `f` is the parameter `Field`. The prediction assumes every cell exists at `level_g`; otherwise the unsigned `level - 1` of the source has no floor.
- The order of the three recursive calls in the scalar `prediction` is unspecified in C++. The model evaluates `ig`, `ig + 1`, `ig - 1`. Each call's result is the prediction whatever the memo holds, so the order changes only which entries get recorded first.
- `end_even` (D1Q5 line 642) is computed but never used, so it has no counterpart.
- The Burgers `prediction_all` is modelled only at its combination step. Its size-unchecked lookup and `operator[]` store are those of the scalar `prediction` (see Findings). Its `i / 2` end bound and its two-column shape are not modelled separately.
- Console output, the physics of the time step, projection, `compute_prediction_separate_inout` and the demos' drivers are outside the modelled core.
- `to_stream` and `operator<<` of the interval and the mesh are output only.

## Findings

| source | as written | input that shows it | evidently intended | confidence | as-written member | corrected member |
|---|---|---|---|---|---|---|
| include/mure/cell_array.hpp:47 | the `std::size_t` counter makes `level >= 0` always true, and `--level` at 0 wraps | a mesh whose levels are all empty: the loop reads `m_cells[2^64 - 1]` instead of returning 0 | scan down to level 0 and then return 0 | not executed | CellArrays.AllEmptyScanReadsPastEnd | CellArrays.CellArray.MaxLevel |
| demos/FiniteVolume-MR/D1Q2_Burgers.cpp:178-181 | `val[0::2]` takes the even-child stencil and `val[1::2]` the odd-child one by row position, over parent rows `0, 1, ...` | `i = [1, 2)` at level 1 over a complete level 0 with the linear field `2x + 1`: the result is 0.5, the prediction 1.5 | choose sign and parent row by the parity of the coordinate, as the shallow-water demo does (lines 640-653) | not executed | BatchPrediction.BurgersParityCounterexample | BatchPrediction.PredictionAll |
| demos/FiniteVolume-MR/D1Q2_Burgers.cpp:95-98 | a memo entry recorded under the same start is returned whatever its size (the `operator[]` store that follows is only reached with an absent key) | over a complete level 0 and an empty level 1, predicting `[0, 4)` of step 2 at level 1 records two values under start 0; the later request `[0, 2)` of step 2 (one cell) gets those two values | treat a size mismatch as a miss and record with `insert`, as the shallow-water `prediction_all` does (lines 590, 666-669) | not executed | ScalarPrediction.UncheckedLookupWrongLength | ScalarPrediction.Prediction |
