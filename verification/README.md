# Nonogram solver (Grid.py) in Dafny

This project models the two-colour nonogram solver of `Grid.py`. A puzzle is a grid of cells. Each cell is UNKNOWN, RED or BLUE, and there is one clue list per row and per column. Rows place runs of RED cells: a RED run is a row's filled run, and BLUE marks the gaps between runs. Columns place runs of BLUE cells, with RED as their gaps. The solver has three layers, and the model keeps each in the form the source gives it.

- **The line solver `solveRow` and its inner `helper`.**
  - Module `LineSpec` holds them as functions on values:
    - the slice and index rules of Python, in module `PyList`;
    - the stripping of a clue already in place at either edge, with the recursion on the rest;
    - the reservation of a window for each clue;
    - the sweeps past opposite-colour cells;
    - the exact-fit and overlap deductions.
  - Module `LineSolver` runs the same steps in place on an array, with one loop per `while`/`for` of the source. Each method is proved to compute exactly the function it follows.
  - Module `LineProperties` proves what a call promises:
    - the line keeps its length;
    - no cell becomes UNKNOWN and no opposite-colour cell is repainted;
    - `dirty` is set exactly when the line changed;
    - the exceptions arise exactly where the source raises them;
    - the forced cells of the two deductions hold the fill colour afterwards.
  - Module `LineCases` works a few lines through the model, among them a separator the guards skip and a clue longer than its line.
- **The grid and its propagation loop.**
  - Module `Board` reads the grid as a value (a list of rows): columns, UNKNOWN cells, what `solveRow` makes of each line, and what it means for a line to be settled.
  - Class `Nonogram.Grid` holds the list of rows as an array of row arrays. Its methods `setRow`/`setCol` and the `while dirty` loop of `solve` update it in place.
  - When the loop stops, every row is settled for its clues with RED runs, and every column with BLUE runs.
- **Speculative backtracking.**
  - `solve` copies the grid, guesses an UNKNOWN cell RED and solves on.
  - On ContradictionException it goes back to the copy, guesses BLUE and solves on.
  - If that fails too, it goes back to the copy again and re-raises.
  - The model keeps the aliasing of the source. After the first rollback, `self.grid` is the copy itself, so the BLUE attempt writes into it, and the second rollback keeps those writes.
  - Each guess removes one UNKNOWN cell and no step adds one, so the recursion terminates. Any call that returns has left a grid with no UNKNOWN cell, in which every line is settled.

`solveRow` can end in two exceptions, and `Exception` has a variant for each:
- ContradictionException;
- StopIteration, from the `next(...)` in `helper` (Grid.py:118-119) on a line whose cells are all the opposite colour. Nothing catches it, so it leaves `solve` as well.

Clue [2, 2] on an empty line of five cells is one worked case. The code fills it completely on the first call, giving RED, RED, BLUE, RED, RED (`LineCases.TwoTwoOfFive`). The two runs and their gap fill the five cells exactly, so `solveRow` forces every cell on the first call.

## Model

| member | source | states |
|---|---|---|
| States.Opposite | Grid.py:112 | the colour `x_color` is never UNKNOWN and differs from the fill colour |
| PyList.Bound | Grid.py:122 | a slice bound lands inside the list, and a bound already inside it is kept |
| PyList.Slice | Grid.py:126 | a slice has the length Python gives it and is the plain subsequence for in-range bounds |
| PyList.Position | Grid.py:141 | a negative index counts from the end and lands inside the list |
| PyList.Update | Grid.py:144 | an item assignment keeps the length of the list |
| PyList.Repeat | Grid.py:154 | `[v] * n` has `n` items, all `v` |
| PyList.AssignRun | Grid.py:156 | a slice assignment of a run sets exactly the cells of the slice and keeps the rest |
| PyList.Reversed | Grid.py:119 | the reversed list holds item `n-1-k` at `k` |
| PyList.FirstOther | Grid.py:118 | `next(...)` finds the first item that differs from `v`, and raises StopIteration exactly when every item equals `v` |
| PyList.FirstOtherAt | Grid.py:173 | the first differing item is at `i` when it differs there and nowhere before |
| LineSpec.SkipLeft | Grid.py:122-123 | the left bound only grows, and it stops at a window with no opposite-colour cell |
| LineSpec.ReserveLeft | Grid.py:121-124 | reserving room for the earlier clues never moves the left bound back |
| LineSpec.SkipRight | Grid.py:126-127 | the right bound only shrinks, and it stops at a window with no opposite-colour cell |
| LineSpec.ReserveRight | Grid.py:125-128 | reserving room for the later clues never moves the right bound forward |
| LineSpec.SweepLeft | Grid.py:132-139 | a finished left sweep moved the bound right and kept the length of the line |
| LineSpec.SweepRight | Grid.py:140-147 | a finished right sweep moved the bound left and kept the length of the line |
| LineSpec.FillRun | Grid.py:154-156 | filling a run keeps the length of the line |
| LineSpec.MarkIf | Grid.py:157-164 | marking a separator keeps the length of the line |
| LineSpec.Deduce | Grid.py:150-170 | the deduction in a window keeps the length of the line |
| LineSpec.Window | Grid.py:118-128 | the window computation raises StopIteration exactly when every cell is the opposite colour, and otherwise starts at or after 0 and ends within the line |
| LineSpec.WindowFrom | Grid.py:119-128 | once a cell other than the opposite colour is found, the window is missing only when every cell is the opposite colour, and otherwise starts at or after that cell and ends within the line |
| LineSpec.LeftStrip | Grid.py:172-177 | the split point of the left strip lies within the line |
| LineSpec.RightStrip | Grid.py:182-187 | the split point of the right strip lies within the line |
| LineSpec.RunBefore | Grid.py:187 | a run found before `right` starts exactly `clues[-1]` cells before it |
| LineSpec.BlockedEnd | Grid.py:126 | a slice `row[lo:hi]` that holds an opposite-colour cell ends after the start of the line, which bounds the `right -= 1` loop |
| LineProperties.EvolvesRefl | Grid.py:109-110 | a line that is not written evolved from itself |
| LineProperties.EvolvesTrans | Grid.py:192-193 | steps that each make no cell UNKNOWN and repaint no opposite-colour cell compose into such a step |
| LineProperties.EvolvesAfterMark | Grid.py:134-136 | marking an UNKNOWN cell with the opposite colour is such a step |
| LineProperties.ChangedAfterMark | Grid.py:134-136 | once an UNKNOWN cell is marked, the line differs from the original whatever follows |
| LineProperties.EvolvesStrict | Grid.py:192-193 | a step that changed the line cannot be undone by later steps |
| LineProperties.EvolvesAntisymmetric | Grid.py:192-193 | two lines that each evolved from the other are equal |
| LineProperties.ReportedTrans | Grid.py:113 | the `dirty` flag carried through two steps reports exactly whether either changed the line |
| LineProperties.EvolvesConcat | Grid.py:180 | the steps of two parts evolve their concatenation |
| LineProperties.ReserveLeftStep | Grid.py:121-124 | one clue of the left reservation loop |
| LineProperties.ReserveRightStep | Grid.py:125-128 | one clue of the right reservation loop |
| LineProperties.SweepLeftStop | Grid.py:132 | the left sweep stops where the window holds no opposite-colour cell |
| LineProperties.SweepLeftMark | Grid.py:133-136 | for the first clue an UNKNOWN cell passed becomes the opposite colour and sets `dirty` |
| LineProperties.SweepLeftSkip | Grid.py:139 | any other cell is passed unchanged |
| LineProperties.SweepLeftConflict | Grid.py:137-138 | for the first clue a fill-colour cell passed raises ContradictionException |
| LineProperties.SweepLeftEvolves | Grid.py:132-139 | every cell the left sweep changes was UNKNOWN and becomes the opposite colour |
| LineProperties.SweepLeftEvolvesMark | Grid.py:133-136 | the same when the sweep marks the cell at its bound and goes on |
| LineProperties.SweepLeftReported | Grid.py:132-139 | after the left sweep `dirty` is set exactly when it was set or the sweep wrote |
| LineProperties.SweepLeftReportedMark | Grid.py:133-136 | the same after a marking step |
| LineProperties.SweepLeftClear | Grid.py:132 | the left sweep ends at a window of `clue` cells with no opposite-colour cell |
| LineProperties.OutsideWriteLeft | Grid.py:136 | a write at the bound stays inside the swept range |
| LineProperties.SweepLeftFrame | Grid.py:132-139 | the left sweep writes only between its start and the bound it reaches |
| LineProperties.SweepLeftFrameMark | Grid.py:133-136 | the same after a marking step |
| LineProperties.MarksOnlyEvolves | Grid.py:132-147 | a line whose only changes turn UNKNOWN cells into the opposite colour evolved from the original |
| LineProperties.MarksOnlyAfterMark | Grid.py:134-136 | marking an UNKNOWN cell, then only marking more, changes the original only by marks |
| LineProperties.MarkKeepsFill | Grid.py:136 | marking with the opposite colour creates no fill-colour cell |
| LineProperties.SweepLeftRaises | Grid.py:137-138 | the left sweep raises only for the first clue, only ContradictionException, and only on a line holding a fill-colour cell |
| LineProperties.SweepLeftOnlyFirstWrites | Grid.py:132-139 | for a clue other than the first the sweep writes nothing and ends where the reservation skip ends |
| LineProperties.SweepRightStop | Grid.py:140 | the right sweep stops where the window holds no opposite-colour cell |
| LineProperties.SweepRightMark | Grid.py:141-144 | `row[right-1]` is a valid Python index, and for the last clue an UNKNOWN cell there becomes the opposite colour |
| LineProperties.SweepRightSkip | Grid.py:141-147 | an opposite-colour cell, or any cell for another clue, is passed unchanged |
| LineProperties.SweepRightConflict | Grid.py:145-146 | for the last clue a fill-colour cell at `right-1` raises ContradictionException |
| LineProperties.SweepRightEvolves | Grid.py:140-147 | every cell the right sweep changes was UNKNOWN and becomes the opposite colour |
| LineProperties.SweepRightEvolvesMark | Grid.py:142-144 | the same when the sweep marks the cell below its bound and goes on |
| LineProperties.SweepRightReported | Grid.py:140-147 | after the right sweep `dirty` is set exactly when it was set or the sweep wrote |
| LineProperties.SweepRightReportedMark | Grid.py:142-144 | the same after a marking step |
| LineProperties.SweepRightClear | Grid.py:140 | the right sweep ends at a window of `clue` cells with no opposite-colour cell |
| LineProperties.SweepRightClearMark | Grid.py:142-144 | the same after a marking step |
| LineProperties.OutsideWriteRight | Grid.py:144 | a write below the bound stays inside the swept range |
| LineProperties.SweepRightFrame | Grid.py:140-147 | a right sweep that stops at a non-negative bound writes only between that bound and its start |
| LineProperties.SweepRightFrameMark | Grid.py:142-144 | the same after a marking step |
| LineProperties.SweepRightRaises | Grid.py:145-146 | the right sweep raises only for the last clue, only ContradictionException, and only on a line holding a fill-colour cell |
| LineProperties.SweepRightRaisesMark | Grid.py:142-146 | the same after a marking step |
| LineProperties.SweepRightOnlyLastWrites | Grid.py:140-147 | for a clue other than the last the sweep writes nothing and ends where the reservation skip ends |
| LineProperties.FreeWindow | Grid.py:132 | a window with no opposite-colour cell holds none at any of its cells |
| LineProperties.FillRunEvolves | Grid.py:154-156 | filling a run free of opposite-colour cells is a step that reports whether it wrote |
| LineProperties.FillRunCells | Grid.py:154-156 | after the slice assignment the cells of the slice hold the fill colour and every other cell is as it was |
| LineProperties.MarkIfEvolves | Grid.py:157-164 | marking a separator is a step that reports whether it wrote |
| LineProperties.DeduceRaises | Grid.py:150-152 | the deduction raises exactly when the window is narrower than the clue, and then raises ContradictionException |
| LineProperties.DeduceEvolves | Grid.py:150-170 | the deduction in a window free of opposite-colour cells is a step that reports whether it wrote |
| LineProperties.DeduceExactEvolves | Grid.py:153-164 | the exact-fit branch does not raise, only evolves the line, and reports whether it changed it |
| LineProperties.DeduceOverlapEvolves | Grid.py:165-170 | the overlap branch does not raise, only evolves the line, and reports whether it changed it |
| LineProperties.ExactEvolves | Grid.py:153-164 | the exact-fit deduction is such a step |
| LineProperties.DeduceExact | Grid.py:153-164 | when the clue fits the window exactly, every cell of it is the fill colour, the separators the guards allow are the opposite colour, a separator the guards skip (cell 0 when `left` is 1, cell `right` when it is `len-2` or `len-1`) keeps its value, and nothing else changes |
| LineProperties.DeduceOverlap | Grid.py:165-170 | when twice the clue exceeds the width, the cells `[left+e, right-e)` are the fill colour and nothing else changes |
| LineProperties.DeduceOverlapResult | Grid.py:165-170 | the overlap branch fills exactly the cells that the leftmost and rightmost placements of the clue share, `[right-clue, left+clue)` |
| LineProperties.DeduceNothing | Grid.py:150-170 | a wider window deduces nothing |
| LineProperties.WindowKept | Grid.py:140-147 | the right sweep keeps the window the left sweep cleared |
| LineProperties.PlaceRightEvolves | Grid.py:140-170 | the right sweep and the deduction after a left sweep only evolve the line and report its change |
| LineProperties.DeduceAfterSweeps | Grid.py:150-170 | the deduction after both sweeps only evolves the line and reports its change |
| LineProperties.PlaceEvolves | Grid.py:131-170 | the part of `helper` after the reservation only evolves the line and reports its change |
| LineProperties.HelperEvolves | Grid.py:115-170 | one `helper` call makes no cell UNKNOWN, repaints no opposite-colour cell, and reports exactly whether it changed the line |
| LineProperties.PlaceRaises | Grid.py:131-170 | after the window is reserved, `helper` raises only ContradictionException |
| LineProperties.HelperStopIteration | Grid.py:118-119 | `helper` raises StopIteration exactly when every cell is the opposite colour |
| LineProperties.RunHelpersStep | Grid.py:192-193 | the loop over the clues runs one `helper` call, then the rest, and stops at the first exception |
| LineProperties.RunHelpersEvolves | Grid.py:192-193 | the loop over the clues only evolves the line and reports its change |
| LineProperties.RunHelpersEvolvesStep | Grid.py:192-193 | the same from one clue on |
| LineProperties.ChainEvolves | Grid.py:192-193 | two steps in sequence only evolve the line and report its change |
| LineProperties.LeftRunCondition | Grid.py:177 | `row[left:clues[0]]` is a full run of the fill colour only when `left` is 0, or the clue is 0 |
| LineProperties.LeftStripOnlyAtStart | Grid.py:172-177 | for a positive first clue, the left strip applies exactly when the line starts with that many fill-colour cells, and splits right after them |
| LineProperties.RightRunStart | Grid.py:187 | the right-edge test holds only for a run that starts inside the line |
| LineProperties.PrependEvolves | Grid.py:178-180 | solving the rest after the left strip evolves the whole line |
| LineProperties.AppendEvolves | Grid.py:188-190 | solving the rest before the right strip evolves the whole line |
| LineProperties.SolveLineEvolves | Grid.py:108-195 | `solveRow` keeps the length, never makes a cell UNKNOWN, never repaints an opposite-colour cell, and returns `dirty` false exactly when the line is unchanged |
| LineProperties.SolveLineAllOpposite | Grid.py:118-119 | with clues, a line all of the opposite colour raises StopIteration |
| LineCases.NoClues | Grid.py:109-110 | with no clues the line comes back unchanged with `dirty` false |
| LineCases.EmptySevenNoStrip | Grid.py:172-190 | an empty line of 7 with clue [5] takes neither strip branch |
| LineCases.EmptySevenSweeps | Grid.py:118-147 | its window is the whole line and neither sweep moves |
| LineCases.EmptySevenDeduce | Grid.py:165-170 | cells 2 to 4 are forced to RED |
| LineCases.FiveOfSeven | Grid.py:108-195 | `solveRow` on an empty line of 7 with clue [5] fills cells 2 to 4 and reports a change |
| LineCases.EmptyFiveNoStrip | Grid.py:172-190 | an empty line of 5 with clues [2, 2] takes neither strip branch |
| LineCases.EmptyFiveFirstWindow | Grid.py:118-147 | the first clue is confined to cells 0 and 1 |
| LineCases.EmptyFiveFirstDeduce | Grid.py:153-164 | the exact fit of cells 0 and 1 paints them RED and cell 2 BLUE, and reports a change |
| LineCases.EmptyFiveFirstClue | Grid.py:153-164 | the first clue fills cells 0 and 1 and marks cell 2 BLUE |
| LineCases.EmptyFiveSecondWindow | Grid.py:118-147 | after the first clue, the second clue is confined to cells 3 and 4 and neither sweep moves |
| LineCases.EmptyFiveSecondDeduce | Grid.py:153-164 | the exact fit of cells 3 and 4 paints them RED |
| LineCases.EmptyFiveSecondClue | Grid.py:115-170 | the second clue is confined to cells 3 and 4 and fills them |
| LineCases.TwoTwoOfFive | Grid.py:108-195 | `solveRow` on an empty line of 5 with clues [2, 2] returns RED, RED, BLUE, RED, RED |
| LineCases.NarrowSeparatorsSkipped | Grid.py:157-164 | an exact run of one at cell 0 of three leaves cell 1 UNKNOWN, and one at cell 1 leaves both neighbours UNKNOWN, because the guards skip those separators |
| LineCases.EmptyThreeNoStrip | Grid.py:172-190 | an empty line of 3 with clue [5] takes neither strip branch |
| LineCases.EmptyThreeSweeps | Grid.py:118-147 | its window is the whole line and neither sweep moves |
| LineCases.ClueLongerThanLine | Grid.py:150-152 | `solveRow` on an empty line of 3 with clue [5] raises ContradictionException |
| LineSolver.FromSeq | Grid.py:178 | a new list holding the given cells |
| LineSolver.FindFirst | Grid.py:118 | the loop finds what `next(...)` over the row finds |
| LineSolver.FindLast | Grid.py:119 | the loop finds what `next(...)` over the reversed row finds |
| LineSolver.SkipLeftFrom | Grid.py:122-123 | the `while any(...)` loop ends at the bound the specification gives |
| LineSolver.ReserveLeftFrom | Grid.py:121-124 | the reservation loop over the earlier clues ends at the specified bound |
| LineSolver.SkipRightFrom | Grid.py:126-127 | the `while any(...)` loop ends at the bound the specification gives |
| LineSolver.ReserveRightFrom | Grid.py:125-128 | the reservation loop over the later clues ends at the specified bound |
| LineSolver.ReserveWindow | Grid.py:118-128 | the window computed is the specified one, or StopIteration exactly when the specification raises it |
| LineSolver.ReserveFrom | Grid.py:119-128 | once the first cell other than the opposite colour is found, the loops compute the specified window |
| LineSolver.SweepLeftInPlace | Grid.py:132-139 | the in-place left sweep leaves the specified line, bound and `dirty`, or raises the same exception |
| LineSolver.SweepLeftStep | Grid.py:133-139 | one turn of the left sweep raises exactly when the specified sweep raises, and otherwise leaves a row whose sweep from `left+1` ends as the specified one |
| LineSolver.SweepRightInPlace | Grid.py:140-147 | the in-place right sweep leaves the specified line, bound and `dirty`, or raises the same exception |
| LineSolver.SweepRightStep | Grid.py:141-147 | one turn of the right sweep raises exactly when the specified sweep raises, and otherwise leaves a row whose sweep from `right-1` ends as the specified one |
| LineSolver.FillInPlace | Grid.py:154-156 | the slice assignment leaves the specified line and `dirty` |
| LineSolver.MarkInPlace | Grid.py:157-164 | a guarded separator write leaves the specified line and `dirty` |
| LineSolver.ExactInPlace | Grid.py:153-164 | the exact-fit branch, filled then marked on both sides, leaves the specified line and `dirty` |
| LineSolver.DeduceInPlace | Grid.py:150-170 | the in-place deduction leaves the specified line and `dirty`, or raises the same exception |
| LineSolver.HelperInPlace | Grid.py:115-170 | one `helper` call on the row leaves the specified line and `dirty`, or raises the same exception |
| LineSolver.HelperIteration | Grid.py:192-193 | one turn of the loop over the clues advances the specified computation |
| LineSolver.RunHelpersInPlace | Grid.py:192-193 | the loop over the clues leaves the specified line and `dirty`, or raises the same exception |
| LineSolver.FrontSplit | Grid.py:172-177 | the left strip test picks the specified split point |
| LineSolver.BackSplit | Grid.py:182-187 | the right strip test picks the specified split point |
| LineSolver.BackRun | Grid.py:187 | the test of the last clue at the right edge gives the specified split point |
| LineSolver.SolveFront | Grid.py:178-180 | the left strip branch returns the prefix followed by the solved rest |
| LineSolver.SolveBack | Grid.py:188-190 | the right strip branch returns the solved rest followed by the suffix |
| LineSolver.SolveRow | Grid.py:108-195 | `solveRow` returns exactly the specified line and `dirty`, or raises the same exception, and the list it returns is the row itself or a new one |
| Board.Column | Grid.py:101-102 | a column has one cell per row, the cell of that row at the column index |
| Board.WithColumn | Grid.py:104-106 | writing a column replaces the column's cell in the first `len(new_col)` rows and changes nothing else |
| Board.ColumnOfWithColumn | Grid.py:101-106 | reading a column just written gives the column written |
| Board.WithOwnColumn | Grid.py:101-106 | writing back the column just read changes nothing |
| Board.UnknownAt | Grid.py:89-92 | a listed coordinate is an UNKNOWN cell of the grid |
| Board.CompleteWhenNoUnknowns | Grid.py:69-70 | the list of UNKNOWN coordinates is empty exactly when no cell is UNKNOWN |
| Board.SettledKeepsLine | Grid.py:56-57 | a line `solveRow` reports as unchanged comes back as it was |
| Board.RowsSettledOfSolved | Grid.py:55-59 | rows that `solveRow` gives back unchanged are settled |
| Board.ColumnsSolvedStep | Grid.py:61-65 | a column step that writes only column `c`, as `solveRow` makes it, extends the solved columns by one and leaves the later columns as the pass found them |
| Board.ColumnsSettledOfSolved | Grid.py:61-65 | columns that `solveRow` gives back unchanged are settled |
| Board.RowUpdateKeepsUnknowns | Grid.py:56-59 | storing a solved row adds no UNKNOWN cell |
| Board.ColumnUpdateKeepsUnknowns | Grid.py:62-65 | storing a solved column adds no UNKNOWN cell |
| Board.GuessShrinks | Grid.py:75-81 | guessing a colour for an UNKNOWN cell removes it from the UNKNOWN cells and adds none |
| Nonogram.Grid.constructor | Grid.py:29-36 | a new grid has one clue list per row and column and `nRows` fresh rows of `nCols` UNKNOWN cells |
| Nonogram.Grid.WithGrid | Grid.py:29-36 | a grid given to the constructor is kept as it is |
| Nonogram.Grid.DeepCopy | Grid.py:71 | the copy is made of new lists and holds the same cells |
| Nonogram.Grid.UnknownCoords | Grid.py:89-93 | the coordinates listed are exactly those of the UNKNOWN cells |
| Nonogram.Grid.GetRow | Grid.py:95-96 | `getRow` returns a new list holding the row |
| Nonogram.Grid.SetRow | Grid.py:98-99 | `setRow` replaces row `r` and no other |
| Nonogram.Grid.GetCol | Grid.py:101-102 | `getCol` returns a new list holding the column |
| Nonogram.Grid.SetCol | Grid.py:104-106 | `setCol` writes the column into the existing row lists and changes no other cell |
| Nonogram.Grid.SolveRowAt | Grid.py:56 | the call returns a new list holding the line `solveRow` specifies for the row, with its `dirty`, or raises the exception it specifies; the new row evolved from the old, and `dirty` is true exactly when they differ |
| Nonogram.Grid.PutRow | Grid.py:58-59 | the grid becomes the old one with row `r` replaced by the new row; the other row lists stay, and no cell becomes UNKNOWN |
| Nonogram.Grid.RowStep | Grid.py:56-59 | row `r` of the new grid is what `solveRow` makes of the old row, and the result is its `dirty`, true exactly when the row changed; every other row stays; on an exception the grid is unchanged and the exception is the one `solveRow` specifies |
| Nonogram.Grid.RowTurn | Grid.py:55-59 | one turn of the row loop extends by row `r` the rows that are what `solveRow` makes of the rows the pass found, keeps the later rows as found, and reports whether the grid has changed; it adds no UNKNOWN cell |
| Nonogram.Grid.SolveColumn | Grid.py:62 | the call returns a new list holding the line `solveRow` specifies for the column, with its `dirty`, or raises the exception it specifies; the new column evolved from the old, and `dirty` is true exactly when they differ |
| Nonogram.Grid.PutColumn | Grid.py:63-65 | the grid becomes the old one with column `c` written, so reading the column back gives the new one and no other cell changes; the row lists stay, and no cell becomes UNKNOWN |
| Nonogram.Grid.ColumnStep | Grid.py:62-65 | column `c` of the new grid is what `solveRow` makes of the old column, and the result is its `dirty`, true exactly when the column changed; every other cell stays; on an exception the grid is unchanged and the exception is the one `solveRow` specifies |
| Nonogram.Grid.ColumnTurn | Grid.py:61-65 | one turn of the column loop extends by column `c` the columns that are what `solveRow` makes of the columns the pass found, keeps the later columns as found, and reports whether the grid has changed; it adds no UNKNOWN cell |
| Nonogram.Grid.RowPass | Grid.py:55-59 | after a row pass every row is what `solveRow` makes of the row it replaced, the result says whether the grid changed, and a pass that changed nothing found every row settled; no cell becomes UNKNOWN |
| Nonogram.Grid.ColumnPass | Grid.py:61-65 | after a column pass every column is what `solveRow` makes of the column it replaced, the result says whether the grid changed, and a pass that changed nothing found every column settled; no cell becomes UNKNOWN |
| Nonogram.Grid.Propagate | Grid.py:51-67 | the `while dirty` loop adds no UNKNOWN cell and, when it ends, leaves every row and column settled; an exception from `solveRow` ends it |
| Nonogram.Grid.Solve | Grid.py:50-86 | `solve` returns only when no cell is UNKNOWN and every line is settled, and adds no UNKNOWN cell, neither to the grid it leaves nor to the list of rows it started on |
| Nonogram.Grid.Speculate | Grid.py:69-86 | the speculation picks an UNKNOWN cell and ends as `solve` does |
| Nonogram.Grid.Retry | Grid.py:77-86 | the BLUE attempt starts from the copy, which still holds the cells of the grid before the RED guess; it leaves fewer UNKNOWN cells than that grid; and after a second ContradictionException `self.grid` is the copy |
| Nonogram.Grid.Rollback | Grid.py:78-84 | `self.grid = cached_grid` makes the copy the grid, with the cells the copy held, and leaves every other list of rows as it was |
| Nonogram.Grid.Guess | Grid.py:75-76 | a guess followed by `solve` leaves fewer UNKNOWN cells than before and does not touch the other copy of the grid |

## Left out

- `from_puzzle_num` and `parse_clues` (Grid.py:38-45, 197-203) read clue files. Clues are given to the constructor as lists of natural numbers, so negative clues from a malformed file are not modelled.
- Rendering is left out: `State.__str__`/`__repr__` and `Grid.__str__` (Grid.py:13-22, 47-48), and the `print` calls in `solve` (Grid.py:73, 80, 85).
- `dist` and the sort in `get_unknown_coords` (Grid.py:93, 205-207) order the coordinates by floating-point distance from the centre.
  - `random.choice` (Grid.py:72) then picks any of them, so the order does not affect which cell can be chosen.
  - `Nonogram.Grid.UnknownCoords` lists the coordinates in row order.
  - `Nonogram.Grid.Speculate` picks any listed coordinate, chosen nondeterministically.
- The `iteration` counter (Grid.py:52, 67) is never read.
- Nonogram.Grid.Propagate: takes a bound `fuel` on the number of passes of the `while dirty` loop and ends with `OutOfFuel` when it runs out.
  - The separator writes at Grid.py:157-164 may repaint a fill-colour cell, so the loop is not known to stop.
  - Runs that would need more passes are not modelled.
- Nonogram.Grid.Solve: passes the same pass bound to every nested `solve`.
  - The recursion itself is proved to terminate.
  - Python's recursion depth limit is not modelled.
- Nonogram.Grid.Solve: a returning call is proved to leave a complete grid on which `solveRow` settles every line. It is not proved that the runs of that grid match the clues, because the deductions are not proved sound for every line. The separator writes at Grid.py:157-164 are one reason: they repaint a fill-colour cell without raising.
- Nonogram.Grid.Retry: the cells left after a second ContradictionException are stated only as a valid grid with fewer UNKNOWN cells. They are the copy as the BLUE attempt left it, not the grid before the guess.
- Nonogram.Grid.SetRow: requires that the new row is not a list already held by another row. `solve` always passes a new list there.
- Nonogram.Grid.SetCol: requires that the new column is not one of the row lists. Again, `solve` always passes a new list.
- Nonogram.Grid.RowPass: after an exception the rows before the one that raised are already replaced; the contract says only that the grid is valid and has no new UNKNOWN cell. Nonogram.Grid.RowTurn states the raising step itself.
- Nonogram.Grid.ColumnPass: likewise, after an exception only validity and the UNKNOWN bound are stated; Nonogram.Grid.ColumnTurn states the raising step.
- Nonogram.Grid.WithGrid: requires a rectangular grid of distinct row lists. A grid with shared row lists, which Python would accept, is not modelled.
- Errors of other kinds than the two exceptions above cannot arise in the model:
  - every index the line solver uses is proved in range (`row[right-1]` through `PyList.Position`);
  - clue and grid sizes are unbounded integers, as in Python.
