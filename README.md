# Sudoku search engine, modelled in Dafny

This project models the core of a Sudoku solver that exists as a Java
program (`Sudoku.java`, `SudokuState.java`) and a C++ program
(`sudoku.cpp`, `sudokuState.hpp`). The two behave the same, except where
noted below.

A *state* is a 9×9 grid of cells plus a heuristic value; cell value 0 (or
anything not positive) means empty. The solver keeps an **open list** of
states waiting to be expanded and a **closed list** of states already
expanded. *Search* works like this:

- It pops the front state and *deduces* it: constraint propagation that
  fills forced cells.
- If that state is not complete, it repeatedly:
  - closes the state;
  - branches on every cell and every value `placeOK` admits, deducing each
    child;
  - returns the first complete child;
  - otherwise merges each child into the open list. A child is skipped when
    the *repeat check* finds its grid on the closed list;
  - pops the next front state.
- *Merge* places a state at the front (depth-first), at the end
  (breadth-first), or before the first state whose value is not greater
  (best-first).

Modules:

- `Board` (board.dfy): grids as `seq<int>` of 81 cells, and the
  specification functions for rows, columns, boxes, counts, `placeOK`,
  validity and completeness. Validity is defined pairwise: no two cells of
  one row, column or box share a digit. It is proved equivalent to the
  cell-by-cell counting that `isValid` performs.
- `State` (state.dfy): class `SudokuState`. Its grid is an `array<int>` of
  81 cells and its value is a field. Each method is proved against the
  `Board` functions.
- `LineFormat` (lineformat.dfy): the text format of `load` and `save`, for
  both Java (a list of lines) and C++ (a character stream read with `fgets`
  into a 49-byte buffer). Both round trips are proved.
- `Deduction` (deduction.dfy): the candidate table `Maybe` and the
  procedures that use it:
  - the table is a flat `array<bool>` of 9·9·10 entries, in the C++ layout;
  - `deduce` and its three passes (fill, prune with `boxCheck`, commit lone
    candidates), `boxCheck`, `columnCheck` and `rowCheck`;
  - each is proved against a specification function on `seq<bool>`, and
    `deduce` against `Deduced`: repeat the first lone-candidate commit until
    none is left.
- `Merging` (merging.dfy): insertion positions for the three strategies, on
  sequences of values.
- `Engine` (engine.dfy): class `Sudoku` with the open list, the closed list
  and the expansion count.
  - `Search` and its parts are proved against ghost functions that list, in
    generation order, the children of an expansion (`GridKids`), those the
    repeat check lets through (`Queued`), and the open list after merging
    them (`MergeKids`).
  - Termination follows from a cost measure: each state weighs 730 to the
    power of its number of empty cells.

Three details of the code that the model follows:

- Only the state popped at the start of `search` is deduced
  (Sudoku.java:293). States popped later in the loop (Sudoku.java:349-350)
  are expanded without a fresh deduction. They were already deduced as
  children.
- The candidate table is 9×9×10 (Sudoku.java:81). Index 0 is never a
  candidate.
- A line shorter than nine characters is fatal for the Java loader, because
  `getChars` throws. The C++ loader pre-fills its buffer with `'0'`, so the
  missing cells read as empty. Both behaviours are modelled:
  `LineFormat.Load` and `LineFormat.LoadStream`.

## Model

| member | source | states |
|---|---|---|
| State.SudokuState.constructor | SudokuState.java:27-35 | a new state has 81 cells, all 0, and value 0 |
| State.SudokuState.GetNumCell | SudokuState.java:39-41 | getNum(x, y) reads cell (x, y) of the grid, stored at index x + 9·y |
| State.SudokuState.SetNum | SudokuState.java:44-46 | setNum writes num at (x, y) and leaves every other cell as it was |
| State.SudokuState.GridCount | SudokuState.java:49-65 | the result is the number of filled (positive) cells, between 0 and 81 |
| State.SudokuState.RowCount | SudokuState.java:68-79 | the result is the number of filled cells of row y, at most 9 |
| State.SudokuState.ColCount | SudokuState.java:82-93 | the result is the number of filled cells of column x, at most 9 |
| State.SudokuState.BoxCount | SudokuState.java:96-114 | the result is the number of filled cells of the 3×3 box holding (x, y), at most 9 |
| State.SudokuState.NumInRow | SudokuState.java:117-128 | the result is how often num occurs in row y |
| State.SudokuState.NumInCol | SudokuState.java:131-142 | the result is how often num occurs in column x |
| State.SudokuState.NumInBox | SudokuState.java:145-163 | the result is how often num occurs in the box holding (x, y) |
| State.SudokuState.PlaceOK | SudokuState.java:166-184 | true exactly when the cell is empty and num is absent from its row, column and box |
| State.SudokuState.IsValid | SudokuState.java:187-217 | true exactly when every cell is in 0..9 and no two cells of a row, column or box share a digit |
| State.SudokuState.IsDuplicate | SudokuState.java:220-228 | true exactly when the two grids are equal cell by cell |
| State.SudokuState.CloneState | SudokuState.java:241-248 | a fresh state with separate storage and equal cells; the value is not copied and is 0 |
| Board.Idx | SudokuState.java:39-46 | cell (x, y) is stored at an index below 81 from which x and y are recovered |
| Board.CountZero | SudokuState.java:166-184 | a zero count means the value does not occur, which is what placeOK's tests rely on |
| Board.FilledAll | SudokuState.java:49-65 | a count of 81 filled cells means every cell is filled (the solution test of search) |
| Board.ValidIffCellsOK | SudokuState.java:187-217 | the per-cell check of isValid holds at every cell exactly when the grid is valid in the pairwise sense |
| Board.PlaceKeepsValid | SudokuState.java:166-184 | writing a value placeOK admits into a valid grid keeps it valid |
| Board.PlaceFillsOne | SudokuState.java:44-65 | writing a positive value into an empty cell raises the filled count by one |
| LineFormat.DigitOf | SudokuState.java:271-278 | a character maps to 0..9, and to a non-zero value exactly for '1'..'9' |
| LineFormat.LoadRows | SudokuState.java:262-280 | loading succeeds exactly when the lines exist and each has at least 9 characters; cell (x, y) is the digit of character x of line y |
| LineFormat.RenderRoundTrip | SudokuState.java:307-313 | a cell in 0..9 is written as one character that load reads back as that cell |
| LineFormat.SavedLines | SudokuState.java:305-317 | save writes 9 lines of 9 characters, and each character reads back as its cell |
| LineFormat.SaveLoadRoundTrip | SudokuState.java:251-330 | loading what save wrote gives back the grid, for cells in 0..9 |
| LineFormat.LineLength | sudokuState.hpp:224 | one fgets call takes at most 48 characters (the buffer of 49 less the terminator), and at least one when input remains |
| LineFormat.ShortLinePadded | sudokuState.hpp:222-224 | cells beyond the end of a short line read as empty, because the buffer is pre-filled with '0' |
| LineFormat.ReadRows | sudokuState.hpp:220-241 | reading k rows succeeds exactly when the input holds at least k lines (`Lines` counts the fgets calls that return a line before end of input), and then yields 9·k cells; a missing line is the only error |
| LineFormat.LoadStream | sudokuState.hpp:215-241 | load(FILE*) succeeds exactly when the input holds at least 9 lines; otherwise it fails at end of input |
| LineFormat.ReadSavedRows | sudokuState.hpp:215-277 | reading back the rows save(FILE*) wrote from row y on yields exactly the cells from row y on and uses up the input |
| LineFormat.SaveLoadStreamRoundTrip | sudokuState.hpp:215-277 | load(FILE*) of what save(FILE*) wrote gives back the grid, for cells in 0..9 |
| Deduction.InitialCandidates | Sudoku.java:369-385 | before pruning, a filled cell's only candidate is its own digit; an empty cell's candidates are exactly the values placeOK admits |
| Deduction.FillCell | Sudoku.java:370-384 | filling one cell's entries sets its ten entries and leaves every other entry of the table as it was |
| Deduction.FillCandidates | Sudoku.java:369-385 | after the first pass the table equals InitialTable of the grid |
| Deduction.ColumnCheck | Sudoku.java:498-511 | true exactly when some cell of the 3×3 block centred at (cx, cy) outside column col still has num as a candidate |
| Deduction.RowCheck | Sudoku.java:514-527 | true exactly when some cell of that block outside row row still has num as a candidate |
| Deduction.ScanMeaning | Sudoku.java:498-527 | the scan of the first k cells of the block finds a hit exactly when one of those cells, off the line, has num as a candidate |
| Deduction.BoxCheck | Sudoku.java:426-495 | the result equals BoxCheckSpec of the table |
| Deduction.BoxCheckMeaning | Sudoku.java:426-495 | boxCheck is true exactly when each other box in the column band has num off column x and each other box in the row band has num off row y |
| Deduction.PruneCell | Sudoku.java:394-398 | each candidate of cell (x, y) is replaced by boxCheck's verdict, and every other entry is kept |
| Deduction.PruneCandidates | Sudoku.java:388-400 | after the second pass the table equals Pruned of the old table and the grid |
| Deduction.PrunedRowsClears | Sudoku.java:388-400 | pruning only clears entries, and never touches filled cells or index 0 |
| Deduction.CountCandidates | Sudoku.java:409-414 | c is the number of candidates of the cell, and i the largest of them (0 if none) |
| Deduction.LoneCandidate | Sudoku.java:409-420 | with exactly one candidate, i is that candidate and no other value is a candidate |
| Deduction.CommitCell | Sudoku.java:405-420 | a cell with one lone candidate gets it and the pass stops; any other cell is left as it is |
| Deduction.FirstLoneMeaning | Sudoku.java:403-421 | FirstLone is the first cell in the scan order (x outer, y inner) whose only candidate is a single value |
| Deduction.CommitLone | Sudoku.java:403-421 | the third pass commits nothing exactly when no cell has a lone candidate; otherwise it writes the first one in scan order and nothing else |
| Deduction.CommitIsPlaceable | Sudoku.java:369-421 | a committed value goes into an empty cell, and placeOK admits it |
| Deduction.DeducePass | Sudoku.java:365-421 | one round of the loop writes exactly the next commit, or ends the loop when there is none |
| Deduction.Deduce | Sudoku.java:355-423 | deduce leaves the grid equal to Deduced of the old grid |
| Deduction.Deduced | Sudoku.java:355-423 | deduction keeps every filled cell and never lowers the filled count |
| Deduction.DeducedValid | Sudoku.java:355-423 | deduction keeps a valid grid valid |
| Deduction.DeducedIsFixed | Sudoku.java:365-421 | after deduction, no lone candidate remains |
| Deduction.DeducedIdempotent | Sudoku.java:355-423 | deducing twice gives the same grid as deducing once |
| Deduction.DeducedStep | Sudoku.java:403-421 | each commit fills exactly one more cell and leads to the same final grid |
| Merging.Position | Sudoku.java:530-556 | the insertion position lies in the list, and under best-first it is BestPosition |
| Merging.DepthAndBreadth | Sudoku.java:532-541 | depth-first inserts at the front; breadth-first appends |
| Merging.BestPositionMeaning | Sudoku.java:544-552 | every state before the best-first position has a greater value, and the state at the position, if any, has a value not greater |
| Merging.BestPositionUnique | Sudoku.java:544-552 | any index with that property is the best-first position |
| Merging.BestKeepsSorted | Sudoku.java:544-552 | best-first insertion keeps a list with non-increasing values non-increasing |
| Merging.InsertAtMultiset | Sudoku.java:530-556 | inserting adds exactly the new state and drops nothing |
| Merging.InsertKeepsOrder | Sudoku.java:530-556 | the states already queued keep their relative order |
| Engine.Sudoku.constructor | Sudoku.java:79-80 | both lists start empty, and the expansion count starts at 0 |
| Engine.Sudoku.Merge | Sudoku.java:530-556 | the open list gains the state at the strategy's position, and best-first keeps a non-increasing list non-increasing |
| Engine.Sudoku.BestIndex | Sudoku.java:544-552 | the scan stops at the best-first position |
| Engine.Sudoku.Repeat | Sudoku.java:559-571 | true exactly when the repeat check is on and the state's grid equals the grid of a closed state |
| Engine.CountChoices | Sudoku.java:312-316 | c is the number of values 1..9 that placeOK admits at the cell |
| Engine.DeducedChild | Sudoku.java:320-324 | the child is a fresh copy with v written and then deduced, so its value is 0; count is its number of filled cells |
| Engine.MakeChild | Sudoku.java:320-333 | a complete child keeps value 0; any other is valued 10·filled + (9 − c); it is valid and keeps the puzzle's clues |
| Engine.ChildGood | Sudoku.java:320-324 | a child of a valid grid that keeps the puzzle's clues is valid and keeps them too |
| Engine.Sudoku.TryChild | Sudoku.java:319-339 | a complete child is returned with value 0; otherwise it is merged unless the repeat check finds its grid closed |
| Engine.Sudoku.Enqueue | Sudoku.java:336-338 | a child whose grid the repeat check finds closed leaves the open list as it was; any other is merged after the children queued before it |
| Engine.Sudoku.MergeKid | Sudoku.java:337 | the open list, as grids and values, gains the child at the strategy's position, and stays admissible and sorted |
| Engine.Sudoku.PlaceValue | Sudoku.java:319-339 | a value placeOK rejects adds nothing; otherwise TryChild's outcome, in generation order |
| Engine.Sudoku.TryValue | Sudoku.java:319-339 | trying value v extends the children tried so far by v's child: either the first complete child of the cell, with value 0, or the open list merged with the queued children up to v |
| Engine.Sudoku.TryValues | Sudoku.java:318-340 | the first complete child among values 1..9, in ascending order, is returned; otherwise every child that does not repeat is merged in order |
| Engine.Sudoku.ExpandCell | Sudoku.java:312-340 | the cell's choices are counted first, then its values are tried |
| Engine.Sudoku.ExpandRow | Sudoku.java:310-341 | the cells of a row are tried left to right, and the first complete child stops the expansion |
| Engine.Sudoku.ExpandRows | Sudoku.java:309-342 | rows are tried top to bottom, and the open list ends up as MergeKids of the queued children |
| Engine.Sudoku.Expand | Sudoku.java:309-342 | returns the first complete child in generation order, or merges every child that does not repeat; the open list then costs less than before plus the state |
| Engine.FirstCompleteMeaning | Sudoku.java:327-329 | FirstComplete is the grid of the first complete child, and none before it is complete |
| Engine.QueuedMembers | Sudoku.java:336-338 | the queued children are exactly the children whose grid the repeat check does not find closed |
| Engine.MergeKidsMultiset | Sudoku.java:530-556 | merging children adds exactly those children to the open list |
| Engine.MergeKidsConcat | Sudoku.java:530-556 | merging children one batch after another equals merging them all in order |
| Engine.KidsAreChildren | Sudoku.java:309-342 | every child keeps its parent's filled cells, fills more, is valid when the parent is, and has a value of 10·filled plus 0..9 |
| Engine.ExpansionCost | Sudoku.java:301-351 | after an expansion, the open list costs less than the old list plus the expanded state, so the loop terminates |
| Engine.Sudoku.DeduceFront | Sudoku.java:293 | the popped state's grid becomes Deduced of its old grid, stays valid and keeps the clues; count is its number of filled cells |
| Engine.Sudoku.Start | Sudoku.java:283-293 | the expansion count is reset; the front state is popped and deduced |
| Engine.Sudoku.Close | Sudoku.java:303-306 | the expansion count goes up by one, and the state is appended to the closed list |
| Engine.Sudoku.PopFront | Sudoku.java:349-350 | the front state is removed and returned; the rest keep their order |
| Engine.Sudoku.CloseAndExpand | Sudoku.java:303-342 | the state is appended to the closed list (and its grid to the closed grids) and the count goes up by one; then either the first complete child in generation order is returned with value 0, or no child is complete and the open list, as grids and values, is `Expanded`: the old list with the children the repeat check lets through against the new closed grids merged in generation order; it costs less than before plus the state |
| Engine.Sudoku.ExpandNext | Sudoku.java:301-350 | the state is closed and expanded as in CloseAndExpand; merged is the open list right after the expansion, equal to `Expanded` of the old list; unless a child is complete, next is merged's front and the open list is the rest of merged, and next is null only when merged is empty |
| Engine.Sudoku.Advance | Sudoku.java:301-350 | one round keeps `Progress`: the closed grids are the loop's starting ones followed by the states expanded so far, and those states, then the current one, replay to the open list; a next state extends the replay with the front of the list the expansion merged, and the cost falls; a round that stops the loop leaves the run `Ended` |
| Engine.Sudoku.Explore | Sudoku.java:300-351 | the run is `Ended`: the states expanded are appended to the closed list in order, the first being the start state; their trace replays from the open and closed lists the loop started with, so each next state is the front of the list the strategy's merge left; a solution is the first complete child of the last state expanded, with value 0; without one the open list is empty and the trace exhausts it |
| Engine.Sudoku.Solve | Sudoku.java:295-351 | a start state with 81 filled cells is returned unexpanded, with a count of 0; any other start state is expanded at least once, with the outcome Explore states |
| Engine.Sudoku.Search | Sudoku.java:274-352 | an empty open list gives null and a count of 0; otherwise the old front is popped and its grid becomes the Deduced grid of its old cells; it is returned unexpanded, with a count of 0, exactly when that deduced grid is complete, and otherwise it is the first state closed; the count equals the number of states closed; the closed grids added are the trace's grids; the trace replays from the old closed grids and the rest of the open list, each next state being the front of the open list after the strategy's merge; a solution is complete, valid and keeps the puzzle's clues, and is the deduced front or the first complete child of the last state expanded; null means the trace exhausted the open list; a sorted best-first list stays sorted |
| Engine.ReplayStep | Sudoku.java:300-350 | a round whose expansion has no complete child and leaves a non-empty merged list extends a replay by that list's front, leaving its rest as the open list |
| Engine.ReplayPrefix | Sudoku.java:300-350 | every non-empty prefix of a trace that replays replays too: a run that reaches a state took each earlier step as the loop does |
| Engine.ReplayDetermined | Sudoku.java:300-350 | the run is determined by where it starts: two traces from the same start that both replay agree on every step they share |
| Engine.ProgressStep | Sudoku.java:303-350 | closing and expanding the current state without a complete child, then popping the merged list's front, keeps the loop's record |
| Engine.ProgressEnd | Sudoku.java:303-348 | when the loop stops, every state expanded is among the closed grids; when it stops because the merged list is empty, the states expanded exhaust the open list |

## Left out

- State.SudokuState.SetNum: cells are unbounded `int`. Java stores `(char) num` (SudokuState.java:45) and C++ a `char` (sudokuState.hpp:41, 306). The model does not wrap values outside the char range; every value the solver writes is 0..9.
- The heuristic value is a `double` in both sources. The model uses `int`, which is exact for every value search assigns (10·filled + 0..9).
- `Vector` (Java) and `std::list` (C++) are modelled as sequences in a field that the methods reassign.
- `Maybe` is a field of the solver in Java (Sudoku.java:61, 81) and a global array in C++ (sudoku.cpp:55). The model allocates it in `Deduction.Deduce` and passes it to the passes that use it. Every pass of deduce rewrites it in full before reading it, so no state survives between calls.
- The load errors that call `exit(1)` at end of input (both loaders) and on a short Java line are modelled as a `Failure` result (`UnexpectedEof`, `ShortLine`). The failure of `fopen` in `load(char *filename)` (sudokuState.hpp:205-207) is not modelled: file opening and closing, and error messages, are outside the model.
- Characters are Dafny `char`. They stand for Java UTF-16 units and C++ bytes; no encoding is modelled.
- Coordinates are limited to 0..8 by preconditions. The source never calls these methods outside that range; out-of-range calls (an exception in Java, undefined behaviour in C++) are not modelled.
- The `default: assert(false)` branch of the C++ merge (sudoku.cpp:489) cannot be reached with the three-valued `Strategy` datatype, so it is not modelled.
- Only the first popped state is deduced, as the code does (Sudoku.java:293, 349-350).
- The command line, interactive prompting, `main`, `solve`, `print` and timing are not modelled. `solve` loads a puzzle, pushes it on the open list, calls search and prints the result.
- `ExpandCount` is an unbounded integer; 32-bit overflow is not modelled.
- C++ `delete` of discarded children and of the closed list is not modelled (Dafny has no deallocation).
- `getValue`/`setValue` are direct reads and writes of the `value` field.
- The Java constructor that copies a given `char[]` grid (SudokuState.java:17-25) is not used by the solver's core and is not modelled.
- Completeness of search (a solution is found whenever one exists) and optimality are not proved. The model proves soundness, the order of expansion and termination.
- The body of `search` is split into methods (`Start`, `Solve`, `Explore`, `Advance`, `ExpandNext`, `CloseAndExpand`, `Close`, `PopFront`, `Expand`, `ExpandRows`, `ExpandRow`, `ExpandCell`, `TryValues`, `TryValue`, `PlaceValue`, `TryChild`, `Enqueue`) so that each one verifies separately. Together they take the same steps in the same order.
