# PiCross core in Dafny

A model of the core of PiCross, a nonogram (picture-logic puzzle) game. A
puzzle is a grid of filled and empty squares. Each column and each row
carries constraints, which are the lengths of its runs of filled squares. The
player, the editor and the solvers all work on a grid of squares that are
Unknown, Filled or Empty.

The model covers:

- **Grids** (`grid.dfy`, module `Grids`; `DataStructures/Grid.cs`).
  - `Grid<T>` values stored row by row, with their rows, columns and
    positions in row-major order, their items, `Map`, `Copy`, `EqualItems`,
    `CreateCharacterGrid` and `FromRows`.
  - `VirtualGrid`, whose items are computed on access.
  - `CellGrid<T>`, a grid of mutable cells over one `array2`. It has the
    filling constructor and the `Overwrite` loops for the whole grid, for one
    column and for one row.
- **Puzzle vocabulary** (`domain.dfy`, module `Domain`): squares, constraints,
  puzzles, lines, and the counting of Unknown squares.
- **The grid solver** (`solver_grid.dfy`, module `SolverGrids`;
  `SolverGrid.cs`).
  - Every operation has a pure specification on grid values: one column or
    row refined, a sweep over all columns or all rows, one pass, and the
    fixpoint.
  - The class `SolverGrid` performs these operations in place on its cells,
    and each method is proved to agree with its specification.
  - Refinement only ever turns Unknown squares into known ones. This makes
    the number of Unknown squares the measure that ends `Refine`.
- **The step-wise solver** (`stepwise_solver.dfy`, module `StepwiseSolvers`;
  `StepwiseSolver.cs`).
  - The continuation-style `SolveStep` closures become a `Cursor` value that
    names the next line.
  - The pure function `Perform` says what one step does. The class methods
    are proved to match it.
- **The play grid** (`play_grid.dfy`, module `PlayGrids`; `PlayGrid.cs`).
  - The constructors' argument checks, in the order the code makes them.
  - Each line's constraints, together with a view of the live cells of that
    line.
- **The editor grid** (`editor_grid.dfy`, module `EditorGrids`;
  `EditorGrid.cs`).
  - Conversion between puzzles and squares, with both round trips.
  - Derived constraints per line.
  - Creation of play grids and solver grids.
- **The in-memory game database** (`in_memory_database.dfy`, module
  `InMemoryDatabases`; `InMemoryDatabase.cs`).
  - The puzzle library: unique UIDs handed out from a counter.
  - The player database: profiles keyed by name, with the name check and the
    sorted list of names.
  - Player profiles: a table of best times, filled lazily.
  - Reading a whole database from an archive's contents.
- **The archive layout** (`game_data_archive.dfy`, module `GameDataArchives`;
  `GameDataArchive.cs`).
  - Entry paths, and how they are recognised again.
  - The line format of a player profile, which is proved to round-trip.

Five routines live outside the core: `Slice.Refine`, `Slice.DeriveConstraints`,
`Constraints.IsSatisfied`, `Constraints.UnsatisfiedValueRange`, and the
sequence `Overwrite` extension that `SolverGrid.OverwriteColumn` and
`OverwriteRow` call on a column or row view (`SolverGrid.cs:75`, `:80`). The
first four are parameters of the model (`Refiner`, `Deriver` and predicates
passed as function values). The sequence `Overwrite` is written out inside
`Grids.CellGrid.OverwriteColumn` and `OverwriteRow`: it is taken to write
every item of the line into the view and to return whether any item changed.

- Of `Slice.Refine` the model assumes only what the grid code relies on. The
  refined line has the same length, and it differs from the input only where
  the input was Unknown.
- C# exceptions are values of `Error`, carried in `Result` or `Outcome`.
- A null argument is `Option.None` (or a nullable class type) where the model
  checks it: in the constructors of `SolverGrid` and `PlayGrid`, in
  `CellGrid.Overwrite` (the source grid), in `InMemoryDatabase.New`, in
  `PuzzleLibrary.Add` and `Equals`, and for player names. The other null
  checks of the code are listed under "Left out".

## Model

| member | source | states |
|---|---|---|
| `Domain.NoUnknownsCounted` | PiCross/Domain/PiCross/SolverGrid.cs:97-102 | a line counts no Unknown square exactly when it contains none |
| `Domain.RefinementCountsDown` | PiCross/Domain/PiCross/SolverGrid.cs:83-95 | refining a line never adds an Unknown square, and the count stays the same only when the line is unchanged |
| `Grids.Grid.Row` | PiCross/DataStructures/Grid.cs:319-322 | row y has Width items, and item x is the grid's item at (x, y) |
| `Grids.Grid.Column` | PiCross/DataStructures/Grid.cs:324-327 | column x has Height items, and item y is the grid's item at (x, y) |
| `Grids.AllPositions` | PiCross/DataStructures/Grid.cs:303-311 | every position listed is a valid position of the grid |
| `Grids.AllPositionsEnumerates` | PiCross/DataStructures/Grid.cs:303-311 | lists width*height positions: exactly the valid ones, y outer and x inner, in strictly increasing row-major order, none twice |
| `Grids.ItemsFollowAllPositions` | PiCross/DataStructures/Grid.cs:317 | `Items` lists the item at each position, in the order of `AllPositions` |
| `Grids.FromFunction` | PiCross/DataStructures/Grid.cs:201-204 | `Grid.Create(size, initializer)`: a grid of that size whose item at every position p is initializer(p) |
| `Grids.Map` | PiCross/DataStructures/Grid.cs:91-94 | same size, and the item at p is f applied to the original item at p |
| `Grids.MapWithPosition` | PiCross/DataStructures/Grid.cs:96-99 | same size, and the item at p is f(p, original item at p) |
| `Grids.MapCompose` | PiCross/DataStructures/Grid.cs:91-94 | mapping f and then h equals mapping their composition once |
| `Grids.AllEqualAt` | PiCross/DataStructures/Grid.cs:246 | true exactly when the two grids agree at every listed position |
| `Grids.EqualItemsIsEquality` | PiCross/DataStructures/Grid.cs:232-253 | `EqualItems` is false for different sizes, and holds exactly when the two grids are the same grid |
| `Grids.Copy` | PiCross/DataStructures/Grid.cs:130-133 | the copy has the same size and is `EqualItems` to the original |
| `Grids.VirtualGrid.Get` | PiCross/DataStructures/Grid.cs:396-409 | inside the grid, the function's value at the position; outside it, the error ArgumentOutOfRange("position"), and only then |
| `Grids.VirtualGrid.Contents` | PiCross/DataStructures/Grid.cs:211-214 | a grid value of the virtual grid's size that the indexer agrees with at every valid position |
| `Grids.CreateCharacterGrid` | PiCross/DataStructures/Grid.cs:216-230 | fails exactly when there are no strings (index error) or when some string's length differs from the first's; otherwise the height is the number of strings, the width is the first string's length, and item (x, y) is strings[y][x] |
| `Grids.FromRows` | PiCross/DataStructures/Grid.cs:260-268 | fails exactly when there is no row or when some row is shorter than the first; otherwise the size is (first row's length, number of rows) and item (x, y) is rows[y][x] |
| `Grids.WithColumnUnchanged` | PiCross/Domain/PiCross/SolverGrid.cs:73-76 | writing a column back leaves the grid as it was exactly when the column already held those items |
| `Grids.WithRowUnchanged` | PiCross/Domain/PiCross/SolverGrid.cs:78-81 | writing a row back leaves the grid as it was exactly when the row already held those items |
| `Grids.CellGrid.Values` | PiCross/DataStructures/Grid.cs:366-368 | a grid value of the array's size whose item at (x, y) is the cell items[x, y] |
| `Grids.CellGrid.Create` | PiCross/DataStructures/Grid.cs:340-358 | the nested fill loop makes a fresh array of the given size whose cell at every position p holds initializer(p) |
| `Grids.CellGrid.Overwrite` | PiCross/DataStructures/Grid.cs:140-161 | a null source is rejected with `ArgumentNull("source")` and a source of another size with "Grids should have same size", and nothing changes then; otherwise, after the loop over all positions, the cells hold exactly the source's items |
| `Grids.CellGrid.OverwriteColumn` | PiCross/Domain/PiCross/SolverGrid.cs:73-76 | column x now holds the line and nothing else changed; the result says whether any cell of the column changed |
| `Grids.CellGrid.OverwriteRow` | PiCross/Domain/PiCross/SolverGrid.cs:78-81 | row y now holds the line and nothing else changed; the result says whether any cell of the row changed |
| `SolverGrids.GridRefinementCountsDown` | PiCross/Domain/PiCross/SolverGrid.cs:140-143 | no grid refinement adds an Unknown square, and one that keeps the number of Unknown squares changes nothing, so `Refine` terminates |
| `SolverGrids.SolvedMeansNoUnknown` | PiCross/Domain/PiCross/SolverGrid.cs:97-102 | the count of Unknown squares is zero exactly when no square of the grid is Unknown |
| `SolverGrids.ColumnRefined` | PiCross/Domain/PiCross/SolverGrid.cs:83-88 | refining column x keeps every known square and leaves every other column as it was |
| `SolverGrids.RowRefined` | PiCross/Domain/PiCross/SolverGrid.cs:90-95 | refining row y keeps every known square and leaves every other row as it was |
| `SolverGrids.SweepColumns` | PiCross/Domain/PiCross/SolverGrid.cs:108-118 | refining columns 0 .. n-1 in order keeps every known square |
| `SolverGrids.SweepRows` | PiCross/Domain/PiCross/SolverGrid.cs:120-130 | refining rows 0 .. n-1 in order keeps every known square |
| `SolverGrids.SinglePass` | PiCross/Domain/PiCross/SolverGrid.cs:132-138 | one pass, all columns then all rows, keeps every known square |
| `SolverGrids.Solve` | PiCross/Domain/PiCross/SolverGrid.cs:140-143 | repeating passes until one changes nothing ends; the result keeps every known square of the start and is a fixpoint: one more pass leaves it unchanged |
| `SolverGrids.PassProgress` | PiCross/Domain/PiCross/SolverGrid.cs:140-143 | a pass changes the grid exactly when it lowers the number of Unknown squares |
| `SolverGrids.ChangesAccumulate` | PiCross/Domain/PiCross/SolverGrid.cs:132-138 | over two refinements in a row, the grid changed exactly when either of them changed it, so or-ing the two flags is exact |
| `SolverGrids.SweepColumnsChanges` | PiCross/Domain/PiCross/SolverGrid.cs:112-115 | after one more column, the sweep has changed the grid exactly when it had already changed it or this column changed it |
| `SolverGrids.SweepRowsChanges` | PiCross/Domain/PiCross/SolverGrid.cs:124-127 | after one more row, the sweep has changed the grid exactly when it had already changed it or this row changed it |
| `SolverGrids.ConstructionError` | PiCross/Domain/PiCross/SolverGrid.cs:24-41 | no error exactly when both constraint sequences are present and non-empty; the checks come in the constructor's order — a missing column sequence, an empty one ("There must be at least one column"), a missing row sequence, an empty one ("There must be at least one row") — each with its own parameter name or message |
| `SolverGrids.SolverGrid.Squares` | PiCross/Domain/PiCross/SolverGrid.cs:145-151 | a grid value of the cells' size whose item at (x, y) is the current value of cell (x, y) |
| `SolverGrids.SolverGrid.CountUnknowns` | PiCross/Domain/PiCross/SolverGrid.cs:97-100 | the number of Unknown cells, which is zero exactly when no square of the grid is Unknown |
| `SolverGrids.SolverGrid.IsSolved` | PiCross/Domain/PiCross/SolverGrid.cs:102 | holds exactly when no square is Unknown |
| `SolverGrids.SolverGrid.constructor` | PiCross/Domain/PiCross/SolverGrid.cs:42-50 | width is the number of column constraints, height is the number of row constraints, and every square is Unknown |
| `SolverGrids.SolverGrid.New` | PiCross/Domain/PiCross/SolverGrid.cs:24-51 | fails exactly when the argument checks fail, with their error; otherwise a fresh all-Unknown grid of (#columns x #rows) squares holding the constraints |
| `SolverGrids.SolverGrid.RefineColumn` | PiCross/Domain/PiCross/SolverGrid.cs:83-88 | the cells become `ColumnRefined` of the old cells; the result is true exactly when the grid changed, which is exactly when the number of Unknown squares fell |
| `SolverGrids.SolverGrid.RefineRow` | PiCross/Domain/PiCross/SolverGrid.cs:90-95 | the cells become `RowRefined` of the old cells; the result is true exactly when the grid changed, which is exactly when the number of Unknown squares fell |
| `SolverGrids.SolverGrid.RefineColumns` | PiCross/Domain/PiCross/SolverGrid.cs:108-118 | every column is refined in order, and none is skipped after a change; the result is true exactly when the grid changed |
| `SolverGrids.SolverGrid.SweepColumn` | PiCross/Domain/PiCross/SolverGrid.cs:114 | one round of the column loop: the sweep advances by one column, and the flag still says whether the sweep has changed the grid |
| `SolverGrids.SolverGrid.RefineRows` | PiCross/Domain/PiCross/SolverGrid.cs:120-130 | every row is refined in order; the result is true exactly when the grid changed |
| `SolverGrids.SolverGrid.SweepRow` | PiCross/Domain/PiCross/SolverGrid.cs:126 | one round of the row loop: the sweep advances by one row, and the flag still says whether the sweep has changed the grid |
| `SolverGrids.SolverGrid.SinglePassRefine` | PiCross/Domain/PiCross/SolverGrid.cs:132-138 | the cells become `SinglePass` of the old cells; the result is true exactly when the pass changed the grid |
| `SolverGrids.SolverGrid.Refine` | PiCross/Domain/PiCross/SolverGrid.cs:140-143 | the loop ends with the cells equal to `Solve` of the old cells: every known square is kept, and one more pass would change nothing |
| `StepwiseSolvers.NextCursor` | PiCross/Domain/PiCross/StepwiseSolver.cs:32-46 | the next line after a line of the grid is again a line of the grid |
| `StepwiseSolvers.CursorCycle` | PiCross/Domain/PiCross/StepwiseSolver.cs:16-56 | from column 0 the cursor visits columns 0 .. width-1, then rows 0 .. height-1, and is back at column 0 after width + height moves |
| `StepwiseSolvers.LineRefined` | PiCross/Domain/PiCross/StepwiseSolver.cs:71-74 | refining the line a cursor names keeps every known square |
| `StepwiseSolvers.Perform` | PiCross/Domain/PiCross/StepwiseSolver.cs:30-56 | one step refines lines in cursor order from the given cursor. Every line but the last is a column that changed nothing. The step ends on a change or on a row, and a row is always the only line of its step. The new grid is the last line's refinement, and the next cursor follows that line |
| `StepwiseSolvers.StepwiseSolver.constructor` | PiCross/Domain/PiCross/StepwiseSolver.cs:16-20 | the first step starts at column 0 |
| `StepwiseSolvers.StepwiseSolver.Step` | PiCross/Domain/PiCross/StepwiseSolver.cs:22-28 | a solved grid and its cursor are left alone; otherwise the grid and the cursor become those of `Perform` |
| `StepwiseSolvers.StepwiseSolver.PerformStep` | PiCross/Domain/PiCross/StepwiseSolver.cs:71-74 | performing the step a cursor names leaves the grid and the next cursor that `Perform` describes |
| `StepwiseSolvers.StepwiseSolver.RefineRowStep` | PiCross/Domain/PiCross/StepwiseSolver.cs:30-42 | refines the row and moves on to the following line, changed or not, as `Perform` describes |
| `StepwiseSolvers.StepwiseSolver.RefineColumnStep` | PiCross/Domain/PiCross/StepwiseSolver.cs:44-56 | refines the column; on no change it goes straight on with the next line, as `Perform` describes |
| `PlayGrids.CurrentLine` | PiCross/Domain/PiCross/PlayGrid.cs:13-49 | the line a view shows is, at every moment, the current contents of that column or row of the cells |
| `PlayGrids.PlayGridConstraints.Values` | PiCross/Domain/PiCross/PlayGrid.cs:72-87 | one entry per run length, in order; entry i has index i and value `constraints.Values[i]`, and is checked against the same line |
| `PlayGrids.ArgumentError` | PiCross/Domain/PiCross/PlayGrid.cs:13-34 | no error exactly when all three arguments are present, the number of column constraints is the width, and the number of row constraints is the height; the checks come in the code's order — a missing column sequence, a missing row sequence, a missing grid, then the column-count and the row-count mismatch — each with its own parameter name or message |
| `PlayGrids.PlayGrid.constructor` | PiCross/Domain/PiCross/PlayGrid.cs:35-48 | the squares are copied into fresh cells; column i and row i carry their constraints and view their own line of those cells |
| `PlayGrids.PlayGrid.New` | PiCross/Domain/PiCross/PlayGrid.cs:13-49 | fails exactly when the argument checks fail, with their error; otherwise a fresh grid holding the given squares and constraints |
| `PlayGrids.PlayGrid.Squares` | PiCross/Domain/PiCross/PlayGrid.cs:57 | a grid value of the cells' size whose item at every position is the cell's current value |
| `PlayGrids.PlayGrid.NewBlank` | PiCross/Domain/PiCross/PlayGrid.cs:51-55 | a missing argument is a null dereference; otherwise an all-Unknown grid of (#columns x #rows) squares with the given constraints |
| `EditorGrids.SquareOf` | PiCross/Domain/PiCross/EditorGrid.cs:42 | a puzzle cell becomes Filled exactly when it is true, and is never Unknown |
| `EditorGrids.PuzzleSquares` | PiCross/Domain/PiCross/EditorGrid.cs:40-43 | a puzzle's squares have the puzzle's size, and none of them is Unknown |
| `EditorGrids.SolutionOf` | PiCross/Domain/PiCross/EditorGrid.cs:95-98 | a puzzle of the grid's size whose cell is true exactly where the square is Filled |
| `EditorGrids.PuzzleRoundTrip` | PiCross/Domain/PiCross/EditorGrid.cs:40-43 | turning a puzzle into squares and back gives the same puzzle |
| `EditorGrids.SquaresRoundTrip` | PiCross/Domain/PiCross/EditorGrid.cs:95-98 | turning squares into a puzzle and back gives the same squares exactly when no square was Unknown |
| `EditorGrids.EditorGrid.constructor` | PiCross/Domain/PiCross/EditorGrid.cs:18-22 | the squares are copied into fresh cells, and the grid then shows exactly them |
| `EditorGrids.EditorGrid.OfSize` | PiCross/Domain/PiCross/EditorGrid.cs:24-28 | fresh cells of the given size, all Unknown |
| `EditorGrids.EditorGrid.FromSize` | PiCross/Domain/PiCross/EditorGrid.cs:30-33 | a fresh blank grid of the given size, all Unknown |
| `EditorGrids.EditorGrid.FromPuzzle` | PiCross/Domain/PiCross/EditorGrid.cs:40-43 | a fresh grid holding the puzzle's squares; turning it back into a puzzle gives the same puzzle |
| `EditorGrids.EditorGrid.Squares` | PiCross/Domain/PiCross/EditorGrid.cs:47 | a grid value of the cells' size whose item at every position is the cell there |
| `EditorGrids.EditorGrid.Column` | PiCross/Domain/PiCross/EditorGrid.cs:49-52 | Height squares; square y is the current value of cell (x, y) |
| `EditorGrids.EditorGrid.Row` | PiCross/Domain/PiCross/EditorGrid.cs:54-57 | Width squares; square x is the current value of cell (x, y) |
| `EditorGrids.EditorGrid.Columns` | PiCross/Domain/PiCross/EditorGrid.cs:59 | one line per column index, in order, line x being `Column(x)` |
| `EditorGrids.EditorGrid.Rows` | PiCross/Domain/PiCross/EditorGrid.cs:61 | one line per row index, in order, line y being `Row(y)` |
| `EditorGrids.EditorGrid.DeriveColumnConstraints` | PiCross/Domain/PiCross/EditorGrid.cs:73-76 | one constraints value per column, in order, each the derivation of that column, which is `DeriveColumnConstraints(column)` |
| `EditorGrids.EditorGrid.DeriveRowConstraints` | PiCross/Domain/PiCross/EditorGrid.cs:78-81 | one constraints value per row, in order, each the derivation of that row, which is `DeriveRowConstraints(row)` |
| `EditorGrids.EditorGrid.ToPuzzle` | PiCross/Domain/PiCross/EditorGrid.cs:95-98 | a puzzle of the grid's size whose cell (x, y) is true exactly when cell (x, y) is Filled |
| `EditorGrids.EditorGrid.CreatePlayGrid` | PiCross/Domain/PiCross/EditorGrid.cs:83-86 | a fresh all-Unknown play grid of the editor's size whose column and row constraints are those derived from the editor's lines |
| `EditorGrids.EditorGrid.CreateSolverGrid` | PiCross/Domain/PiCross/EditorGrid.cs:88-91 | fails exactly for a grid without columns or without rows, with the solver grid's messages; otherwise a fresh all-Unknown solver grid for the derived constraints |
| `InMemoryDatabases.PuzzleLibraryEntry.constructor` | PiCross/Domain/PiCross/InMemoryDatabase.cs:210-215 | the entry holds the given UID, puzzle and author |
| `InMemoryDatabases.NextUIDAfterAppend` | PiCross/Domain/PiCross/InMemoryDatabase.cs:159-160 | one more entry raises the counter to that entry's UID + 1 when the counter lies below it, as `Math.Max` does |
| `InMemoryDatabases.NextUIDAfterIsLeastAbove` | PiCross/Domain/PiCross/InMemoryDatabase.cs:147-162 | the counter after adding the entries in order to an empty library is above every one of their UIDs, and is either 0 or one of those UIDs + 1: the least non-negative number above them all |
| `InMemoryDatabases.UIDs` | PiCross/Domain/PiCross/InMemoryDatabase.cs:174-191 | the entries' UIDs, position by position |
| `InMemoryDatabases.FindEntry` | PiCross/Domain/PiCross/InMemoryDatabase.cs:121 | nothing is found exactly when no entry has the UID; what is found is an entry with that UID |
| `InMemoryDatabases.PuzzleLibrary.CreateEmpty` | PiCross/Domain/PiCross/InMemoryDatabase.cs:104-113 | no entries, and the next UID is 0 |
| `InMemoryDatabases.PuzzleLibrary.ContainsEntryWithUID` | PiCross/Domain/PiCross/InMemoryDatabase.cs:164-167 | holds exactly when the UID is among the entries' UIDs, and exactly when the search the indexer makes finds an entry |
| `InMemoryDatabases.PuzzleLibrary.Get` | PiCross/Domain/PiCross/InMemoryDatabase.cs:117-132 | fails with "No entry found" exactly when no entry has the UID; otherwise returns an entry of the library with that UID |
| `InMemoryDatabases.PuzzleLibrary.GetFindsEveryEntry` | PiCross/Domain/PiCross/InMemoryDatabase.cs:117-132 | in a library with distinct UIDs, every entry is the one found under its own UID |
| `InMemoryDatabases.PuzzleLibrary.Create` | PiCross/Domain/PiCross/InMemoryDatabase.cs:134-145 | the new entry gets the old next UID, which no entry had yet; it is appended, the counter goes up by one, UIDs stay distinct, and the entry is found under its UID |
| `InMemoryDatabases.PuzzleLibrary.Add` | PiCross/Domain/PiCross/InMemoryDatabase.cs:147-162 | a null entry or a UID already present is rejected, with nothing changed; otherwise the entry is appended, the counter rises past its UID, and the entry is found under its UID |
| `InMemoryDatabases.PuzzleLibrary.Equals` | PiCross/Domain/PiCross/InMemoryDatabase.cs:174-191 | holds exactly when the other library is not null and has the same UIDs in the same order |
| `InMemoryDatabases.PlayerPuzzleInformationEntry.constructor` | PiCross/Domain/PiCross/InMemoryDatabase.cs:398-401 | a new entry has no best time |
| `InMemoryDatabases.PlayerPuzzleInformationEntry.SetBestTime` | PiCross/Domain/PiCross/InMemoryDatabase.cs:403-413 | the setter stores the given best time |
| `InMemoryDatabases.PlayerProfile.constructor` | PiCross/Domain/PiCross/InMemoryDatabase.cs:353-357 | a profile of the given name with no entries |
| `InMemoryDatabases.PlayerProfile.Get` | PiCross/Domain/PiCross/InMemoryDatabase.cs:361-372 | an existing entry is returned and nothing changes; a missing one is created without a best time, stored under the UID and returned |
| `InMemoryDatabases.PlayerProfile.SetBestTime` | PiCross/Domain/PiCross/InMemoryDatabase.cs:361-413 | setting a best time through the indexer changes that puzzle's best time to the given ticks and no other best time |
| `InMemoryDatabases.PlayerProfile.BestTimes` | PiCross/Domain/PiCross/InMemoryDatabase.cs:391-413 | the UIDs with a best time, each mapped to that best time |
| `InMemoryDatabases.TimesAfterSet` | PiCross/Domain/PiCross/InMemoryDatabase.cs:403-413 | recording a time under one UID, with the other entries unchanged, adds exactly that time to the recorded ones |
| `InMemoryDatabases.OrdinalLessIrreflexive` | PiCross/Domain/PiCross/InMemoryDatabase.cs:315-324 | no name sorts before itself |
| `InMemoryDatabases.OrdinalLessTransitive` | PiCross/Domain/PiCross/InMemoryDatabase.cs:315-324 | the order of names is transitive |
| `InMemoryDatabases.OrdinalLessTotal` | PiCross/Domain/PiCross/InMemoryDatabase.cs:315-324 | of two different names, one sorts before the other |
| `InMemoryDatabases.InsertSorted` | PiCross/Domain/PiCross/InMemoryDatabase.cs:315-324 | inserting a new name into a strictly sorted list keeps it strictly sorted and adds exactly that name |
| `InMemoryDatabases.StrictlySortedUnique` | PiCross/Domain/PiCross/InMemoryDatabase.cs:315-324 | two strictly sorted lists of the same names are equal, so the list of player names is determined |
| `InMemoryDatabases.PlayerDatabase.CreateEmpty` | PiCross/Domain/PiCross/InMemoryDatabase.cs:248-256 | no profiles |
| `InMemoryDatabases.PlayerDatabase.Get` | PiCross/Domain/PiCross/InMemoryDatabase.cs:258-271 | a null or all-white-space name is rejected with "Invalid name"; an unknown name is a missing key; otherwise the profile stored under the name |
| `InMemoryDatabases.PlayerDatabase.CreateNewProfile` | PiCross/Domain/PiCross/InMemoryDatabase.cs:278-296 | an invalid name or a name already taken is rejected, with nothing changed; otherwise a fresh empty profile of that name is stored under it, and the indexer finds it |
| `InMemoryDatabases.PlayerDatabase.AddProfile` | PiCross/Domain/PiCross/InMemoryDatabase.cs:298-313 | a name already taken is rejected with "Player with same name already exists", with nothing changed; otherwise the profile is stored under its name |
| `InMemoryDatabases.PlayerDatabase.PlayerNames` | PiCross/Domain/PiCross/InMemoryDatabase.cs:315-324 | every stored name, once each, in strictly ascending order |
| `InMemoryDatabases.InMemoryDatabase.constructor` | PiCross/Domain/PiCross/InMemoryDatabase.cs:69-72 | the database holds the given library and player database |
| `InMemoryDatabases.InMemoryDatabase.New` | PiCross/Domain/PiCross/InMemoryDatabase.cs:58-73 | a null library is rejected with `ArgumentNull("library")`, then a null player database with `ArgumentNull("playerDatabase")`; otherwise a new database holding both |
| `InMemoryDatabases.InMemoryDatabase.CreateEmpty` | PiCross/Domain/PiCross/InMemoryDatabase.cs:17-23 | an empty library with next UID 0, and no players |
| `InMemoryDatabases.InMemoryDatabase.ReadFromArchive` | PiCross/Domain/PiCross/InMemoryDatabase.cs:39-56 | given the profiles and entries already read from the archive: fails exactly when two profiles share a name (reported first) or two entries share a UID; otherwise every profile is stored under its name, the library holds the entries in archive order, and its next UID is the least non-negative number above all their UIDs |
| `InMemoryDatabases.InMemoryDatabase.AddProfiles` | PiCross/Domain/PiCross/InMemoryDatabase.cs:43-47 | the profile loop fails exactly on a repeated name; otherwise every profile is stored under its name, and no other name is stored |
| `InMemoryDatabases.InMemoryDatabase.AddEntries` | PiCross/Domain/PiCross/InMemoryDatabase.cs:49-53 | the entry loop fails exactly on a repeated UID; otherwise the library holds the entries in order, and its counter is what the `Add` calls leave (`NextUIDAfter` of the entries) |
| `GameDataArchives.NatToDecimal` | PiCross/Domain/PiCross/GameDataArchive.cs:150-153 | the decimal text of a number is a non-empty string of digits |
| `GameDataArchives.IntToDecimal` | PiCross/Domain/PiCross/GameDataArchive.cs:121-126 | the decimal text of any number is non-empty and has no space, so the "uid ticks" line splits at its one space |
| `GameDataArchives.NatToDecimalRoundTrip` | PiCross/Domain/PiCross/GameDataArchive.cs:150-173 | decimal digits read back give the number they were written from |
| `GameDataArchives.PadLeft` | PiCross/Domain/PiCross/GameDataArchive.cs:152 | `PadLeft(width, c)` keeps the text at the end and puts c in front, up to the width |
| `GameDataArchives.LeadingZeros` | PiCross/Domain/PiCross/GameDataArchive.cs:150-173 | leading zeros do not change the value of a digit string |
| `GameDataArchives.ParseInt` | PiCross/Domain/PiCross/GameDataArchive.cs:88-90 | a malformed number is a format error; white space around the number and NUL characters after it are accepted |
| `GameDataArchives.ParseIntIgnoresTrailingNuls` | PiCross/Domain/PiCross/GameDataArchive.cs:83-90 | NUL characters appended to a text do not change what it parses to, so `"12"` followed by a NUL reads as 12 |
| `GameDataArchives.ParseIntRoundTrip` | PiCross/Domain/PiCross/GameDataArchive.cs:83-90 | every number reads back from its decimal text |
| `GameDataArchives.Split` | PiCross/Domain/PiCross/GameDataArchive.cs:88 | `Split` always yields at least one part |
| `GameDataArchives.SplitAtSeparator` | PiCross/Domain/PiCross/GameDataArchive.cs:88 | text without the separator is one part, and a separator after it starts the next part |
| `GameDataArchives.Between` | PiCross/Domain/PiCross/GameDataArchive.cs:160-188 | what is found between the prefix and the suffix, put back between them, gives the whole name |
| `GameDataArchives.BetweenOf` | PiCross/Domain/PiCross/GameDataArchive.cs:160-188 | a name made of the prefix, some text and the suffix yields that text |
| `GameDataArchives.ExtractEntryID` | PiCross/Domain/PiCross/GameDataArchive.cs:160-173 | a recognised library entry ID is never negative |
| `GameDataArchives.ExtractPlayerName` | PiCross/Domain/PiCross/GameDataArchive.cs:175-188 | a recognised player name has no line break |
| `GameDataArchives.EntryPathRoundTrip` | PiCross/Domain/PiCross/GameDataArchive.cs:150-173 | the path written for a UID yields that UID again when the UID is not negative, and is not recognised at all when it is negative |
| `GameDataArchives.EntryNameOf` | PiCross/Domain/PiCross/GameDataArchive.cs:160-173 | "library/entry" + text + ".txt" is recognised exactly when the text is a non-empty run of digits, and yields their value |
| `GameDataArchives.PaddedDecimal` | PiCross/Domain/PiCross/GameDataArchive.cs:150-153 | a UID's zero-padded text is all digits exactly when the UID is not negative, and then it reads back as the UID |
| `GameDataArchives.PlayerPathRoundTrip` | PiCross/Domain/PiCross/GameDataArchive.cs:155-188 | the path written for a player yields that name again exactly when the name has no line break |
| `GameDataArchives.PlayerNameShape` | PiCross/Domain/PiCross/GameDataArchive.cs:175-188 | a recognised player entry name is that player's path, perhaps followed by one line break |
| `GameDataArchives.ProfileIsNoLibraryEntry` | PiCross/Domain/PiCross/GameDataArchive.cs:155-173 | a player's path is never taken for a library entry |
| `GameDataArchives.LibraryEntryIsNoProfile` | PiCross/Domain/PiCross/GameDataArchive.cs:150-188 | a library entry's path is never taken for a player profile |
| `GameDataArchives.RecognisedConcatenates` | PiCross/Domain/PiCross/GameDataArchive.cs:41-61 | recognising the entry names of two parts of an archive recognises each part in turn |
| `GameDataArchives.PuzzleLibraryUIDs` | PiCross/Domain/PiCross/GameDataArchive.cs:41-50 | at most one UID per entry name, and none negative |
| `GameDataArchives.RecognisedNonNegative` | PiCross/Domain/PiCross/GameDataArchive.cs:41-50 | every UID listed from entry names is non-negative |
| `GameDataArchives.PlayerNames` | PiCross/Domain/PiCross/GameDataArchive.cs:52-61 | at most one player name per entry name |
| `GameDataArchives.ListedLibraryUIDs` | PiCross/Domain/PiCross/GameDataArchive.cs:41-50 | an archive written for some non-negative UIDs and some players lists exactly those UIDs, in order |
| `GameDataArchives.ListedPlayerNames` | PiCross/Domain/PiCross/GameDataArchive.cs:52-61 | an archive written for some UIDs and some players without line breaks in their names lists exactly those players, in order |
| `GameDataArchives.LibraryUIDsOfPaths` | PiCross/Domain/PiCross/GameDataArchive.cs:41-50 | the library entries' paths list their non-negative UIDs back, in order |
| `GameDataArchives.LibraryUIDsOfProfiles` | PiCross/Domain/PiCross/GameDataArchive.cs:41-50 | profile paths contribute no library UID |
| `GameDataArchives.PlayerNamesOfPaths` | PiCross/Domain/PiCross/GameDataArchive.cs:52-61 | library entry paths contribute no player name |
| `GameDataArchives.PlayerNamesOfProfiles` | PiCross/Domain/PiCross/GameDataArchive.cs:52-61 | the profiles' paths list the players back, in order, when no name has a line break |
| `GameDataArchives.PairLinesAt` | PiCross/Domain/PiCross/GameDataArchive.cs:121-126 | line k of the written pair lines is pair k's "uid ticks" line |
| `GameDataArchives.FormatProfile` | PiCross/Domain/PiCross/GameDataArchive.cs:121-126 | one line more than there are pairs, and the first line is the number of pairs |
| `GameDataArchives.ParseEntryLine` | PiCross/Domain/PiCross/GameDataArchive.cs:88-90 | a bad entry line fails with a format error or an index error |
| `GameDataArchives.EntryLineRoundTrip` | PiCross/Domain/PiCross/GameDataArchive.cs:88-90 | every (uid, ticks) pair reads back from the line written for it |
| `GameDataArchives.ReadEntriesStep` | PiCross/Domain/PiCross/GameDataArchive.cs:85-93 | one turn of the reading loop: a missing line is a null dereference, a bad line ends with its error, and a good line sets one best time and reads on |
| `GameDataArchives.ReadProfile` | PiCross/Domain/PiCross/GameDataArchive.cs:76-97 | an empty entry is a null argument to the count parse, and a malformed count line is a format error |
| `GameDataArchives.ReadEntriesOfFormat` | PiCross/Domain/PiCross/GameDataArchive.cs:85-93 | reading the written lines from any point sets the remaining pairs' best times in order |
| `GameDataArchives.ProfileRoundTrip` | PiCross/Domain/PiCross/GameDataArchive.cs:76-128 | reading back the lines written for some pairs succeeds, with the best times those pairs set |
| `GameDataArchives.SetBestTimesAppend` | PiCross/Domain/PiCross/GameDataArchive.cs:92 | setting one more pair sets it over the others |
| `GameDataArchives.Without` | PiCross/Domain/PiCross/GameDataArchive.cs:116-119 | the part of a best-time table outside a set of UIDs |
| `GameDataArchives.BestTimePairs` | PiCross/Domain/PiCross/GameDataArchive.cs:116-119 | the query yields (uid, ticks) pairs which, set one after the other, give exactly the profile's best times, one pair per best time; entries without a best time are left out |
| `GameDataArchives.UpdatePlayerProfile` | PiCross/Domain/PiCross/GameDataArchive.cs:110-128 | writes to the player's path a first line holding the number of best times, then one line per best time, and reading the written lines back gives exactly the profile's best times |
| `GameDataArchives.WriteProfileLines` | PiCross/Domain/PiCross/GameDataArchive.cs:121-126 | the write loop produces the count line, then one "uid ticks" line per pair, in order |
| `GameDataArchives.ReadPlayerProfile` | PiCross/Domain/PiCross/GameDataArchive.cs:76-97 | fails exactly when reading the lines fails, with that error; otherwise a fresh profile of the given name whose best times are those read, with no entry lacking one |
| `GameDataArchives.ReadBestTimes` | PiCross/Domain/PiCross/GameDataArchive.cs:85-93 | the loop ends like the reading specification: the same error, or the same best times, with an entry for each UID read |

## Left out

- `Slice.Refine`, `Slice.DeriveConstraints`, `Constraints.IsSatisfied` and
  `Constraints.UnsatisfiedValueRange` are parameters. They belong to the line
  algorithms, which sit outside the grid code modelled here. `Slice.Refine` is
  constrained only by what the grid code relies on.
- `PlayGrids.PlayGridConstraintValue.IsSatisfied`, `PlayGrids.PlayGridConstraints.IsSatisfied`,
  `EditorGrids.EditorGrid.DeriveColumnConstraintsAt` and
  `EditorGrids.EditorGrid.DeriveRowConstraintsAt` only hand their line to the
  parameters, so they have no contract of their own.
- `Grids.IsValidPosition` (`Grid.cs:298-301`), `InMemoryDatabases.IsValidPlayerName`
  (`InMemoryDatabase.cs:273-276`), `InMemoryDatabases.PlayerProfile.EntryUIDs`
  (`InMemoryDatabase.cs:391`) and the typed `Equals` of
  `InMemoryDatabases.PuzzleLibraryEntry` (`InMemoryDatabase.cs:228-231`),
  `InMemoryDatabases.PlayerPuzzleInformationEntry` (`:420-423`),
  `InMemoryDatabases.PlayerProfile` (`:379-382`) and
  `InMemoryDatabases.InMemoryDatabase` (`:88-91`) are definitions with no
  contract of their own. Each is the one-line test or projection of its source
  member. What they promise is stated where they are used, for example in
  `Grids.AllPositionsEnumerates`, `Grids.VirtualGrid.Get`,
  `InMemoryDatabases.PlayerDatabase.Get` and
  `InMemoryDatabases.PuzzleLibrary.Equals`.
- `GameDataArchives.GetLibraryEntryPath` and `GameDataArchives.GetPlayerProfilePath`
  have no contract of their own. What they promise is stated by the path
  round-trip lemmas.
- `SolverGrid.FromPuzzle` and `EditorGrid.FromStrings` are left out. They
  depend on `Puzzle`'s derived constraints and `Square.CreateGrid`, which are
  outside the modelled files.
- `ReadPuzzleLibraryEntry` and `UpdateLibraryEntry` are left out. They go
  through the puzzle serializer, which is outside the modelled files.
- The zip archive and its streams are left out. This covers opening and
  closing the archive, `AutoCloseGameDataArchive`, `ReadFromArchive(path)`
  and `Dispose`. An archive is its list of entry names, and a profile entry is
  the list of lines its reader returns. The newline conventions of the stream
  writer are not modelled.
- `int.Parse` and `long.Parse` are modelled for ASCII digits, an optional
  sign, surrounding white space and trailing NUL characters. Overflow, culture settings and the
  thousands and exponent styles are not modelled. The regex `\d` is taken as
  ASCII digits only.
- `PlayerDatabase.PlayerNames` sorts in ordinal (character-code) order. The
  source's `orderby` uses the culture's string comparer, which is not
  modelled.
- InMemoryDatabases.FindEntry: does not state that the entry found is the
  first one with the UID, as `List.Find` returns. In a valid library the
  UIDs are distinct, so `GetFindsEveryEntry` pins the result down there.
- InMemoryDatabases.PuzzleLibrary.Create: does not model the 32-bit
  wrap-around of `nextUID + 1`. UIDs and ticks are unbounded integers.
- InMemoryDatabases.PuzzleLibrary.Add: does not model the 32-bit wrap-around
  of `UID + 1`.
- GameDataArchives.BestTimePairs: the order of the pairs is left open. The
  source follows the dictionary's enumeration order, which .NET does not
  specify.
- `InMemoryDatabases.InMemoryDatabase.Equals` takes the player-database
  comparison as a parameter. `PlayerDatabase.Equals` relies on a dictionary
  `EqualItems` extension that is outside the modelled files.
- `GetHashCode` overrides are not modelled. Neither are `Equals(object)`
  overloads beyond the typed ones, or `PuzzleLibraryEntry.CompareTo`.
- A null profile passed to `AddProfile`, and null entries in the archive's
  lists, are not modelled: references are non-null there.
- Grids.CellGrid.Overwrite: the null check on the target grid
  (`Grid.cs:142-145`) is not modelled, because the method is called on an
  object, which is never null. The null check on the source is modelled.
- InMemoryDatabases.InMemoryDatabase.constructor: takes non-null arguments.
  The null checks on `library` and `playerDatabase` (`InMemoryDatabase.cs:60-67`)
  are modelled by `InMemoryDatabases.InMemoryDatabase.New`, which calls it.
- Grids.EqualItems and Grids.VirtualGrid: grids and functions are values, which
  cannot be null. So the null checks on `xss` and `yss` (`Grid.cs:234-241`) and
  on `size` and `function` in the `VirtualGrid` constructor (`Grid.cs:379-386`)
  are not modelled.
- Line indices are preconditions. The source takes any `int` and throws when
  it is out of range, and the model does not model that throw. This covers
  `SolverGrids.SolverGrid.RefineColumn` and `RefineRow` (`SolverGrid.cs:83`,
  `:90`), `EditorGrids.EditorGrid.Column` and `Row` (`EditorGrid.cs:49`, `:54`),
  and `Grids.Grid.Row` and `Column` (`Grid.cs:319`, `:324`).
- InMemoryDatabases.InMemoryDatabase.ReadFromArchive: takes the profiles and
  entries as already read. In the source every read comes just before its
  `Add` (`InMemoryDatabase.cs:43-53`), and a read can itself fail
  (`GameDataArchive.cs:76-97`, modelled by `GameDataArchives.ReadPlayerProfile`).
  The model does not state which error wins when a read fails after an earlier
  duplicate, or what partial state a failed read leaves.
- PlayGrids.PlayGrid.Squares: the source exposes the grid of cells itself
  (`PlayGrid.cs:57`). The model returns a snapshot of their values.
- SolverGrids.SolverGrid.Squares and EditorGrids.EditorGrid.Squares: the source
  returns a live `VirtualGrid` view of the cells (`SolverGrid.cs:145-151`,
  `EditorGrid.cs:47`). The model returns a snapshot of the cells at the time of
  the call. A view read after later changes to the cells is not modelled.
- `Linearize`, `AsStrings`, the `ForEach` extensions, the `Map` overload on
  positions only, and the `Overwrite` overload for `Cell<T>` grids are left
  out. The `Cell<T>` overload is identical to the modelled `IVar<T>` one.
- Best times are `TimeSpan` ticks, as the archive stores them.
- Exception types are modelled by kind (for example `ArgumentNull` or
  `InvalidArgument`) and by the message the code gives.
- The puzzle editor, the game data adapters, the view models and the views
  are outside the core.
