/** The step-by-step solver of Domain/PiCross/StepwiseSolver.cs. It keeps a
    cursor over the lines of a SolverGrid: columns 0 .. width-1, then rows
    0 .. height-1, then round again. One step refines the line under the
    cursor and moves it on; a column whose refinement changes nothing does
    not end the step, the next line is refined at once, whereas a row always
    ends the step, changed or not.

    In the C# code the cursor is a `SolveStep` closure calling
    `RefineColumn(i)` or `RefineRow(i)`; here it is the `Cursor` value naming
    that call. */
module StepwiseSolvers {
  import opened Grids
  import opened Domain
  import opened SolverGrids

  /** The line the next step starts at. */
  datatype Cursor = ColumnStep(index: nat) | RowStep(index: nat)

  /** The cursor names a line of a grid of the given size. */
  predicate InRange(s: Cursor, size: Size)
  {
    match s
    case ColumnStep(x) => x < size.width
    case RowStep(y) => y < size.height
  }

  /** The `nextStep` of RefineColumn/RefineRow: the following column, row 0
      after the last column, the following row, column 0 after the last row. */
  function NextCursor(s: Cursor, size: Size): (r: Cursor)
    requires size.width > 0 && size.height > 0
    ensures InRange(s, size) ==> InRange(r, size)
  {
    match s
    case ColumnStep(x) => if x + 1 == size.width then RowStep(0) else ColumnStep(x + 1)
    case RowStep(y) => if y + 1 == size.height then ColumnStep(0) else RowStep(y + 1)
  }

  /** The cursor moved on n times. */
  function Advance(s: Cursor, size: Size, n: nat): Cursor
    requires size.width > 0 && size.height > 0
  {
    if n == 0 then s else NextCursor(Advance(s, size, n - 1), size)
  }

  /** Starting from column 0, the cursor visits every column in order, then every
      row in order, and is back at column 0 after width + height moves. */
  lemma {:induction false} CursorCycle(size: Size, k: nat)
    requires size.width > 0 && size.height > 0 && k <= size.width + size.height
    ensures k < size.width ==> Advance(ColumnStep(0), size, k) == ColumnStep(k)
    ensures size.width <= k < size.width + size.height ==> Advance(ColumnStep(0), size, k) == RowStep(k - size.width)
    ensures k == size.width + size.height ==> Advance(ColumnStep(0), size, k) == ColumnStep(0)
  {
    if k > 0 {
      CursorCycle(size, k - 1);
    }
  }

  /** The grid after refining the line the cursor names. */
  function LineRefined(g: Grid<Square>, s: Cursor, columnConstraints: seq<Constraints>,
                       rowConstraints: seq<Constraints>, refine: Refiner): (r: Grid<Square>)
    requires g.Valid() && |columnConstraints| == g.size.width && |rowConstraints| == g.size.height
    requires InRange(s, g.size)
    ensures GridRefines(g, r)
  {
    match s
    case ColumnStep(x) => ColumnRefined(g, x, columnConstraints[x], refine)
    case RowStep(y) => RowRefined(g, y, rowConstraints[y], refine)
  }

  /** What one step did: the new grid, the cursor for the next step, and the
      lines refined, in order. */
  datatype StepOutcome = StepOutcome(grid: Grid<Square>, next: Cursor, performed: seq<Cursor>)

  /** `SolveStep.Perform` from cursor s. The lines refined follow the cursor
      order; every one but the last is a column whose refinement changed
      nothing; the grid is the last line's refinement; and the step ends
      having changed the grid or having refined a row. */
  function Perform(g: Grid<Square>, s: Cursor, columnConstraints: seq<Constraints>,
                   rowConstraints: seq<Constraints>, refine: Refiner): (o: StepOutcome)
    requires g.Valid() && g.size.width > 0 && g.size.height > 0
    requires |columnConstraints| == g.size.width && |rowConstraints| == g.size.height
    requires InRange(s, g.size)
    ensures |o.performed| >= 1 && o.performed[0] == s
    ensures forall i :: 0 <= i < |o.performed| ==> InRange(o.performed[i], g.size)
    ensures forall i :: 0 <= i < |o.performed| - 1 ==>
              && o.performed[i].ColumnStep?
              && LineRefined(g, o.performed[i], columnConstraints, rowConstraints, refine) == g
              && o.performed[i + 1] == NextCursor(o.performed[i], g.size)
    ensures o.grid == LineRefined(g, o.performed[|o.performed| - 1], columnConstraints, rowConstraints, refine)
    ensures o.next == NextCursor(o.performed[|o.performed| - 1], g.size)
    ensures o.grid != g || o.performed[|o.performed| - 1].RowStep?
    ensures s.RowStep? ==> |o.performed| == 1
    ensures s.ColumnStep? ==> |o.performed| <= g.size.width - s.index + 1
    ensures GridRefines(g, o.grid)
    decreases if s.ColumnStep? then g.size.width - s.index else 0
  {
    var next := NextCursor(s, g.size);
    match s
    case RowStep(y) =>
      StepOutcome(LineRefined(g, s, columnConstraints, rowConstraints, refine), next, [s])
    case ColumnStep(x) =>
      var refined := LineRefined(g, s, columnConstraints, rowConstraints, refine);
      if refined != g then StepOutcome(refined, next, [s])
      else
        var rest := Perform(g, next, columnConstraints, rowConstraints, refine);
        StepOutcome(rest.grid, rest.next, [s] + rest.performed)
  }

  class StepwiseSolver {
    const solverGrid: SolverGrid
    var step: Cursor

    /** The solver grid is well formed and the cursor names one of its lines. */
    ghost predicate Valid()
      reads this
    {
      solverGrid.Valid() && InRange(step, solverGrid.squares.GridSize())
    }

    /** Starts at column 0. */
    constructor (solverGrid: SolverGrid)
      requires solverGrid.Valid()
      ensures Valid() && this.solverGrid == solverGrid && step == ColumnStep(0)
    {
      this.solverGrid := solverGrid;
      step := ColumnStep(0);
    }

    /** The current squares of the solver grid. */
    function Grid(): Grid<Square>
      reads solverGrid.squares.items
    {
      solverGrid.Squares()
    }

    /** Whether no square is Unknown any more. */
    predicate IsSolved()
      reads solverGrid.squares.items
    {
      solverGrid.IsSolved()
    }

    /** Does nothing once the puzzle is solved; otherwise performs the step the
        cursor names and keeps the cursor it returns. */
    method Step()
      requires Valid()
      modifies this, solverGrid.squares.items
      ensures Valid()
      ensures old(IsSolved()) ==> Grid() == old(Grid()) && step == old(step)
      ensures !old(IsSolved()) ==>
                var o := Perform(old(Grid()), old(step), solverGrid.columnConstraints, solverGrid.rowConstraints,
                                 solverGrid.refine);
                Grid() == o.grid && step == o.next
    {
      if !solverGrid.IsSolved() {
        step := PerformStep(step);
      }
    }

    /** `SolveStep.Perform`: runs the refinement the cursor names. */
    method PerformStep(s: Cursor) returns (next: Cursor)
      requires solverGrid.Valid() && InRange(s, solverGrid.squares.GridSize())
      modifies solverGrid.squares.items
      ensures InRange(next, solverGrid.squares.GridSize())
      ensures var o := Perform(old(Grid()), s, solverGrid.columnConstraints, solverGrid.rowConstraints,
                               solverGrid.refine);
              Grid() == o.grid && next == o.next
      decreases if s.ColumnStep? then |solverGrid.columnConstraints| - s.index else 0, 2
    {
      match s
      case ColumnStep(x) => next := RefineColumnStep(x);
      case RowStep(y) => next := RefineRowStep(y);
    }

    /** Refines row `row` and moves on to the following line, changed or not. */
    method RefineRowStep(row: nat) returns (next: Cursor)
      requires solverGrid.Valid() && row < solverGrid.Height()
      modifies solverGrid.squares.items
      ensures InRange(next, solverGrid.squares.GridSize())
      ensures var o := Perform(old(Grid()), RowStep(row), solverGrid.columnConstraints, solverGrid.rowConstraints,
                               solverGrid.refine);
              Grid() == o.grid && next == o.next
      decreases 0, 1
    {
      var nextStep := NextCursor(RowStep(row), solverGrid.squares.GridSize());
      var changed := solverGrid.RefineRow(row);
      next := nextStep;
    }

    /** Refines column `column`; when that changed the grid the step ends,
        otherwise the following line is refined straight away. */
    method RefineColumnStep(column: nat) returns (next: Cursor)
      requires solverGrid.Valid() && column < solverGrid.Width()
      modifies solverGrid.squares.items
      ensures InRange(next, solverGrid.squares.GridSize())
      ensures var o := Perform(old(Grid()), ColumnStep(column), solverGrid.columnConstraints,
                               solverGrid.rowConstraints, solverGrid.refine);
              Grid() == o.grid && next == o.next
      decreases |solverGrid.columnConstraints| - column, 1
    {
      var nextStep := NextCursor(ColumnStep(column), solverGrid.squares.GridSize());
      var changed := solverGrid.RefineColumn(column);
      if changed {
        next := nextStep;
      } else {
        next := PerformStep(nextStep);
      }
    }
  }
}
