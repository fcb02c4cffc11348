/** The puzzle editor's grid of Domain/PiCross/EditorGrid.cs: squares in
    mutable cells that the editor changes one by one, read back as lines, as
    derived constraints, as a puzzle (filled = true), or handed on to a new
    solver grid or play grid.

    `Slice.DeriveConstraints` is not part of this model; the derivations
    receive it as a function value. */
module EditorGrids {
  import opened Wrappers
  import opened Grids
  import opened Domain
  import opened SolverGrids
  import opened PlayGrids

  /** The square a puzzle cell becomes: filled for true, empty for false. */
  function SquareOf(filled: bool): (s: Square)
    ensures s != Unknown
    ensures s == Filled <==> filled
  {
    if filled then Filled else Empty
  }

  /** The squares of a puzzle's solution, cell by cell. */
  function PuzzleSquares(puzzle: Puzzle): (g: Grid<Square>)
    requires puzzle.grid.Valid()
    ensures g.Valid() && g.size == puzzle.grid.size
    ensures forall p :: IsValidPosition(g.size, p) ==> g.At(p) != Unknown
  {
    Map(puzzle.grid, SquareOf)
  }

  /** The puzzle a grid of squares spells: filled squares are true, empty and
      unknown squares false. */
  function SolutionOf(g: Grid<Square>): (puzzle: Puzzle)
    requires g.Valid()
    ensures puzzle.grid.Valid() && puzzle.grid.size == g.size
    ensures forall p :: IsValidPosition(g.size, p) ==> (puzzle.grid.At(p) <==> g.At(p) == Filled)
  {
    Puzzle(Map(g, s => s == Filled))
  }

  /** Reading a puzzle into squares and back gives the same puzzle. */
  lemma PuzzleRoundTrip(puzzle: Puzzle)
    requires puzzle.grid.Valid()
    ensures SolutionOf(PuzzleSquares(puzzle)) == puzzle
  {
    GridExtensionality(SolutionOf(PuzzleSquares(puzzle)).grid, puzzle.grid);
  }

  /** Turning squares into a puzzle and back gives the same squares exactly
      when no square was Unknown. */
  lemma SquaresRoundTrip(g: Grid<Square>)
    requires g.Valid()
    ensures PuzzleSquares(SolutionOf(g)) == g <==> forall p :: IsValidPosition(g.size, p) ==> g.At(p) != Unknown
  {
    var back := PuzzleSquares(SolutionOf(g));
    if forall p :: IsValidPosition(g.size, p) ==> g.At(p) != Unknown {
      GridExtensionality(back, g);
    } else {
      var p :| IsValidPosition(g.size, p) && g.At(p) == Unknown;
      assert back.At(p) != g.At(p);
    }
  }

  class EditorGrid {
    const contents: CellGrid<Square>

    /** `new EditorGrid(grid)`: the squares copied into fresh cells. */
    constructor (grid: Grid<Square>)
      requires grid.Valid()
      ensures fresh(contents) && fresh(contents.items)
      ensures Squares() == grid
    {
      var cells := new CellGrid.Create(grid.size, p requires grid.Valid() && IsValidPosition(grid.size, p) =>
                                                    grid.At(p));
      GridExtensionality(cells.Values(), grid);
      contents := cells;
    }

    /** The private size constructor: every square Unknown. */
    constructor OfSize(size: Size)
      ensures fresh(contents) && fresh(contents.items)
      ensures Squares().size == size
      ensures forall p :: IsValidPosition(size, p) ==> Squares().At(p) == Unknown
    {
      contents := new CellGrid.Create(size, _ => Unknown);
    }

    /** `EditorGrid.FromSize(size)`: a blank grid of that size. */
    static method FromSize(size: Size) returns (e: EditorGrid)
      ensures fresh(e) && fresh(e.contents) && fresh(e.contents.items)
      ensures e.Squares().size == size
      ensures forall p :: IsValidPosition(size, p) ==> e.Squares().At(p) == Unknown
    {
      e := new EditorGrid.OfSize(size);
    }

    /** `EditorGrid.FromPuzzle(puzzle)`: the puzzle's squares, filled for true
        and empty for false. */
    static method FromPuzzle(puzzle: Puzzle) returns (e: EditorGrid)
      requires puzzle.grid.Valid()
      ensures fresh(e) && fresh(e.contents) && fresh(e.contents.items)
      ensures e.Squares() == PuzzleSquares(puzzle)
      ensures e.ToPuzzle() == puzzle
    {
      PuzzleRoundTrip(puzzle);
      e := new EditorGrid(PuzzleSquares(puzzle));
    }

    /** The current squares. */
    function Squares(): (g: Grid<Square>)
      reads contents.items
      ensures g.Valid() && g.size == contents.GridSize()
      ensures forall x, y :: 0 <= x < contents.items.Length0 && 0 <= y < contents.items.Length1 ==>
                g.At(Vector2D(x, y)) == contents.items[x, y]
    {
      contents.Values()
    }

    function Size(): Size
    {
      contents.GridSize()
    }

    /** Column x as it is now: Height squares, square y being the cell at (x, y). */
    function Column(x: int): (line: Line)
      requires 0 <= x < Size().width
      reads contents.items
      ensures |line| == Size().height
      ensures forall y :: 0 <= y < |line| ==> line[y] == contents.items[x, y]
    {
      Squares().Column(x)
    }

    /** Row y as it is now: Width squares, square x being the cell at (x, y). */
    function Row(y: int): (line: Line)
      requires 0 <= y < Size().height
      reads contents.items
      ensures |line| == Size().width
      ensures forall x :: 0 <= x < |line| ==> line[x] == contents.items[x, y]
    {
      Squares().Row(y)
    }

    /** All columns, in index order. */
    function Columns(): (lines: seq<Line>)
      reads contents.items
      ensures |lines| == Size().width
      ensures forall x :: 0 <= x < |lines| ==> lines[x] == Column(x)
    {
      seq(Size().width, x requires 0 <= x < Size().width reads contents.items => Column(x))
    }

    /** All rows, in index order. */
    function Rows(): (lines: seq<Line>)
      reads contents.items
      ensures |lines| == Size().height
      ensures forall y :: 0 <= y < |lines| ==> lines[y] == Row(y)
    {
      seq(Size().height, y requires 0 <= y < Size().height reads contents.items => Row(y))
    }

    /** `DeriveColumnConstraints(column)`: the constraints of column `column` as it is now. */
    function DeriveColumnConstraintsAt(derive: Deriver, column: int): Constraints
      requires 0 <= column < Size().width
      reads contents.items
    {
      derive(Column(column))
    }

    /** `DeriveRowConstraints(row)`: the constraints of row `row` as it is now. */
    function DeriveRowConstraintsAt(derive: Deriver, row: int): Constraints
      requires 0 <= row < Size().height
      reads contents.items
    {
      derive(Row(row))
    }

    /** `DeriveColumnConstraints()`: one constraints value per column, in index
        order, each the column's own derivation. */
    function DeriveColumnConstraints(derive: Deriver): (cs: seq<Constraints>)
      reads contents.items
      ensures |cs| == Size().width
      ensures forall x :: 0 <= x < |cs| ==> cs[x] == DeriveColumnConstraintsAt(derive, x)
    {
      var columns := Columns();
      seq(|columns|, x requires 0 <= x < |columns| => derive(columns[x]))
    }

    /** `DeriveRowConstraints()`: one constraints value per row, in index order,
        each the row's own derivation. */
    function DeriveRowConstraints(derive: Deriver): (cs: seq<Constraints>)
      reads contents.items
      ensures |cs| == Size().height
      ensures forall y :: 0 <= y < |cs| ==> cs[y] == DeriveRowConstraintsAt(derive, y)
    {
      var rows := Rows();
      seq(|rows|, y requires 0 <= y < |rows| => derive(rows[y]))
    }

    /** `ToPuzzle()`: the puzzle whose filled cells are the Filled squares. */
    function ToPuzzle(): (puzzle: Puzzle)
      reads contents.items
      ensures puzzle.grid.Valid() && puzzle.grid.size == Size()
      ensures forall x, y :: 0 <= x < Size().width && 0 <= y < Size().height ==>
                (puzzle.grid.At(Vector2D(x, y)) <==> contents.items[x, y] == Filled)
    {
      SolutionOf(Squares())
    }

    /** `CreatePlayGrid()`: a blank play grid checked against the constraints
        derived from this grid's columns and rows. It never fails. */
    method CreatePlayGrid(derive: Deriver) returns (grid: PlayGrid)
      ensures fresh(grid) && fresh(grid.squares) && fresh(grid.squares.items) && grid.Valid()
      ensures grid.Squares().size == Size()
      ensures forall p :: IsValidPosition(Size(), p) ==> grid.Squares().At(p) == Unknown
      ensures forall x :: 0 <= x < Size().width ==>
                grid.columnConstraints[x].constraints == DeriveColumnConstraintsAt(derive, x)
      ensures forall y :: 0 <= y < Size().height ==>
                grid.rowConstraints[y].constraints == DeriveRowConstraintsAt(derive, y)
    {
      var r := PlayGrid.NewBlank(Some(DeriveColumnConstraints(derive)), Some(DeriveRowConstraints(derive)));
      grid := r.value;
    }

    /** `CreateSolverGrid()`: a solver grid for the constraints derived from this
        grid's columns and rows; it fails as the solver grid's constructor does,
        for a grid without columns or without rows. */
    method CreateSolverGrid(derive: Deriver, refine: Refiner) returns (r: Result<SolverGrid, Error>)
      ensures r.Failure? <==> Size().width == 0 || Size().height == 0
      ensures Size().width == 0 ==> r == Failure(InvalidArgument("There must be at least one column"))
      ensures Size().width > 0 && Size().height == 0 ==> r == Failure(InvalidArgument("There must be at least one row"))
      ensures r.Success? ==>
                && fresh(r.value) && fresh(r.value.squares) && r.value.Valid()
                && r.value.columnConstraints == DeriveColumnConstraints(derive)
                && r.value.rowConstraints == DeriveRowConstraints(derive)
                && forall p :: IsValidPosition(Size(), p) ==> r.value.Squares().At(p) == Unknown
    {
      r := SolverGrid.New(Some(DeriveColumnConstraints(derive)), Some(DeriveRowConstraints(derive)), refine);
    }
  }
}
